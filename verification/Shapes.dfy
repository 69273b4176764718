/**
 * The wire shapes of the data elements (section 4 of ISO 8583:1987 as v_misc.c formats it): how one field
 * value is put on the wire by the output formats and got back by the input formats.
 */
module Shapes {
  import opened Memory
  import opened Digits
  import opened Ebcdic
  import opened Zoned
  import opened Message

  /** A field value between the message record and the wire. */
  datatype FieldValue = FieldValue(num: int, aux: int, text: Text)

  function Num(v: int): FieldValue { FieldValue(v, 0, []) }
  function Txt(s: Text): FieldValue { FieldValue(0, 0, s) }

  datatype Shape =
    | Number(len: nat)         // FMT_BTOI of an even count, FMT_BTOS of either parity
    | Stamp                    // FMT_BTOI 4 then FMT_BTOI 6
    | Amount                   // out FMT_BTOM 12, in FMT_BTOC 12
    | VarBcd(cap: nat)         // a length byte, then FMT_BTOC
    | Text8(len: nat)          // FMT_CHAR of a fixed length, in EBCDIC
    | VarText(cap: nat)        // a length byte, then FMT_CHAR in EBCDIC
    | Raw                      // one byte
    | Hex                      // FMT_BINARY 8
    | Tagged                   // a byte 2, then FMT_BTOS 2

  function LeftNibble(s: Text, k: nat): (n: nat)
    ensures n < 16
  {
    if k < |s| then s[k] % 16 else 0
  }

  /** FMT_BTOM out: low nibbles packed from the left into n bytes that were zero. */
  function LeftPack(s: Text, n: nat): (b: seq<byte>)
    ensures |b| == n
  {
    seq(n, i requires 0 <= i < n => 16 * LeftNibble(s, 2 * i) + LeftNibble(s, 2 * i + 1))
  }

  function Put(sh: Shape, c: FieldValue): seq<byte>
  {
    match sh
    case Number(len) => NumBytes(c.num, len)
    case Stamp => NumBytes(c.num, 4) + NumBytes(c.aux, 6)
    case Amount => LeftPack(c.text, 6)
    case VarBcd(_) => [|c.text| % 256] + Pack(c.text)
    case Text8(len) => AtoeText(Fixed(c.text, len))
    case VarText(_) => [|c.text| % 256] + AtoeText(c.text)
    case Raw => [c.num % 256]
    case Hex => Fixed(ToBinary(Fixed(c.text, 16)), 8)
    case Tagged => [2] + NumBytes(c.num, 2)
  }

  /** Got: the value and the bytes it took. Nowhere: the read runs off the data, the array or the text code. */
  datatype Reading = Got(c: FieldValue, n: nat) | Nowhere

  function GetNumber(b: seq<byte>, len: nat): Reading
  {
    if |b| < (len + 1) / 2 then Nowhere
    else if len % 2 == 0 then Got(Num(Btoi(b, len)), len / 2)
    else Got(Num(Atoi(Unpack(b, len))), (len + 1) / 2)
  }

  function GetPair(b: seq<byte>, h1: nat, h2: nat): Reading
  {
    if |b| < h1 + h2 then Nowhere
    else Got(FieldValue(Btoi(b, 2 * h1), Btoi(b[h1..], 2 * h2), []), h1 + h2)
  }

  function GetVarBcd(b: seq<byte>, cap: nat): Reading
  {
    if |b| < 1 then Nowhere
    else
      var len: nat := b[0];
      if len > cap || |b| < 1 + (len + 1) / 2 then Nowhere
      else Got(Txt(Unpack(b[1..], len)), 1 + (len + 1) / 2)
  }

  function GetText(b: seq<byte>, len: nat): Reading
  {
    if |b| < len || !Plain(b[..len]) then Nowhere else Got(Txt(EtoaText(b[..len])), len)
  }

  function GetVarText(b: seq<byte>, cap: nat): Reading
  {
    if |b| < 1 then Nowhere
    else
      var len: nat := b[0];
      if len > cap then Nowhere
      else match GetText(b[1..], len) case Nowhere => Nowhere case Got(c, n) => Got(c, 1 + n)
  }

  function GetTagged(b: seq<byte>, len: nat): Reading
  {
    if |b| < 1 + (len + 1) / 2 then Nowhere else Got(Num(Atoi(Unpack(b[1..], len))), 1 + (len + 1) / 2)
  }

  function Get(sh: Shape, b: seq<byte>): (r: Reading)
    ensures r.Got? ==> r.n <= |b|
  {
    match sh
    case Number(len) => GetNumber(b, len)
    case Stamp => GetPair(b, 2, 3)
    case Amount => if |b| < 6 then Nowhere else Got(Txt(Unpack(b, 12)), 6)
    case VarBcd(cap) => GetVarBcd(b, cap)
    case Text8(len) => GetText(b, len)
    case VarText(cap) => GetVarText(b, cap)
    case Raw => if |b| < 1 then Nowhere else Got(Num(b[0]), 1)
    case Hex => if |b| < 8 then Nowhere else Got(Txt(ToZoned(b[..8])), 8)
    case Tagged => GetTagged(b, 2)
  }

  /** The values a shape can carry there and back. */
  predicate Fits(sh: Shape, c: FieldValue)
  {
    match sh
    case Number(len) => c == Num(c.num) && len <= 8 && 0 <= c.num < Pow10(len)
    case Stamp => c.text == [] && 0 <= c.num < 10_000 && 0 <= c.aux < 1_000_000
    case Amount => c == Txt(c.text) && |c.text| == 12 && AllNibbles(c.text)
    case VarBcd(cap) => c == Txt(c.text) && |c.text| <= cap < 256 && AllNibbles(c.text)
    case Text8(len) => c == Txt(c.text) && |c.text| == len && AllRestorable(c.text)
    case VarText(cap) => c == Txt(c.text) && |c.text| <= cap < 256 && AllRestorable(c.text)
    case Raw => c == Num(c.num) && 0 <= c.num < 256
    case Hex =>
      && c == Txt(c.text) && |c.text| == 16 && AllHex(c.text)
      && forall i :: 0 <= i < 16 ==> Upper(c.text[i]) == c.text[i]
    case Tagged => c == Num(c.num) && 0 <= c.num < 100
  }

  /** The byte strings that Put can have written. */
  predicate CanonicalBytes(sh: Shape, b: seq<byte>)
  {
    Get(sh, b).Got? &&
    match sh
    case Number(len) =>
      len <= 8 && AllDigits(Unpack(b, len)) && (len % 2 == 1 ==> b[0] < 16)
    case Stamp => AllDigits(NibbleText(b, 4)) && AllDigits(NibbleText(b[2..], 6))
    case Amount => true
    case VarBcd(cap) => cap < 256 && (b[0] % 2 == 1 ==> b[1] < 16)
    case Text8(len) => Ebcdic.Canonical(b[..len])
    case VarText(cap) => cap < 256 && Ebcdic.Canonical(b[1..1 + b[0] as int])
    case Raw => true
    case Hex => true
    case Tagged => b[0] == 2 && AllDigits(Unpack(b[1..], 2))
  }

  lemma {:induction false} Pow10AtMost8(len: nat)
    requires len <= 8
    ensures Pow10(len) <= 100_000_000
  {
    Pow10Small();
    if len < 8 { Pow10Grows(len, 8); }
  }

  lemma LeftPackPair(s: Text, i: nat)
    requires i < 6
    ensures LeftPack(s, 6)[i] / 16 == LeftNibble(s, 2 * i) && LeftPack(s, 6)[i] % 16 == LeftNibble(s, 2 * i + 1)
  {}

  lemma LeftPackUnpackAt(s: Text, rest: seq<byte>, k: nat)
    requires AllNibbles(s) && |s| == 12 && k < 12
    ensures UnpackAt(LeftPack(s, 6) + rest, 12, k) == s[k]
  {
    var b, i := LeftPack(s, 6) + rest, k / 2;
    NibblePair(b, i);
    LeftPackPair(s, i);
    assert b[i] == LeftPack(s, 6)[i];
    if k % 2 == 0 { assert k == 2 * i; } else { assert k == 2 * i + 1; }
  }

  lemma LeftPackUnpack(s: Text, rest: seq<byte>)
    requires AllNibbles(s) && |s| == 12
    ensures Unpack(LeftPack(s, 6) + rest, 12) == s
  {
    forall k | 0 <= k < 12 ensures Unpack(LeftPack(s, 6) + rest, 12)[k] == s[k] { LeftPackUnpackAt(s, rest, k); }
  }

  lemma LeftPackOfUnpack(b: seq<byte>)
    requires |b| >= 6
    ensures LeftPack(Unpack(b, 12), 6) == b[..6]
  {
    var s := Unpack(b, 12);
    forall i | 0 <= i < 6 ensures LeftPack(s, 6)[i] == b[i] {
      NibblePair(b, i);
      assert s[2 * i] == UnpackAt(b, 12, 2 * i) && s[2 * i + 1] == UnpackAt(b, 12, 2 * i + 1);
    }
  }

  /** A number of at most eight digits is its own unsigned reading. */
  lemma SmallNumber(v: int, len: nat)
    requires len <= 8 && 0 <= v < Pow10(len)
    ensures NumBytes(v, len) == Pack(ItoaText(v, len))
  {
    Pow10AtMost8(len);
  }

  lemma EvenBack(v: int, h: nat, rest: seq<byte>)
    requires h <= 4 && 0 <= v < Pow10(2 * h)
    ensures |NumBytes(v, 2 * h)| == h
    ensures Btoi(NumBytes(v, 2 * h) + rest, 2 * h) == v
  {
    hide Btoi, Pack, ItoaText, Pow10;
    SmallNumber(v, 2 * h);
    BtoiItob(v, 2 * h, rest);
  }

  lemma NumberBack(v: int, len: nat, rest: seq<byte>)
    requires len <= 8 && 0 <= v < Pow10(len)
    ensures GetNumber(NumBytes(v, len) + rest, len) == Got(Num(v), (len + 1) / 2)
  {
    hide Btoi, Unpack, Atoi, Pack, ItoaText, Pow10;
    SmallNumber(v, len);
    if len % 2 == 0 { BtoiItob(v, len, rest); } else { UnpackItob(v, len, rest); }
  }

  lemma PairBack(v: int, w: int, h1: nat, h2: nat, rest: seq<byte>)
    requires h1 <= 4 && h2 <= 4 && 0 <= v < Pow10(2 * h1) && 0 <= w < Pow10(2 * h2)
    ensures GetPair(NumBytes(v, 2 * h1) + NumBytes(w, 2 * h2) + rest, h1, h2) == Got(FieldValue(v, w, []), h1 + h2)
  {
    hide Btoi, NumBytes, Pow10;
    var tail := NumBytes(w, 2 * h2) + rest;
    var b := NumBytes(v, 2 * h1) + NumBytes(w, 2 * h2) + rest;
    EvenBack(v, h1, tail);
    EvenBack(w, h2, rest);
    assert b == NumBytes(v, 2 * h1) + tail;
    assert b[h1..] == tail;
  }

  lemma VarBcdBack(s: Text, cap: nat, rest: seq<byte>)
    requires |s| <= cap < 256 && AllNibbles(s)
    ensures GetVarBcd([|s|] + Pack(s) + rest, cap) == Got(Txt(s), 1 + (|s| + 1) / 2)
  {
    var b := [|s|] + Pack(s) + rest;
    assert b[1..] == Pack(s) + rest;
    UnpackPack(s, rest);
  }

  lemma TextBack(s: Text, rest: seq<byte>)
    requires AllRestorable(s)
    ensures GetText(AtoeText(s) + rest, |s|) == Got(Txt(s), |s|)
  {
    EtoaAtoe(s);
    assert (AtoeText(s) + rest)[..|s|] == AtoeText(s);
  }

  lemma VarTextBack(s: Text, cap: nat, rest: seq<byte>)
    requires |s| <= cap < 256 && AllRestorable(s)
    ensures GetVarText([|s|] + AtoeText(s) + rest, cap) == Got(Txt(s), 1 + |s|)
  {
    var b := [|s|] + AtoeText(s) + rest;
    assert b[1..] == AtoeText(s) + rest;
    TextBack(s, rest);
  }

  lemma HexBack(s: Text, rest: seq<byte>)
    requires |s| == 16 && AllHex(s) && forall i :: 0 <= i < 16 ==> Upper(s[i]) == s[i]
    ensures |ToBinary(s)| == 8 && ToZoned((ToBinary(s) + rest)[..8]) == s
  {
    ZonedBinary(s);
    assert (ToBinary(s) + rest)[..8] == ToBinary(s);
  }

  lemma TaggedBack(v: int, len: nat, rest: seq<byte>)
    requires len <= 8 && 0 <= v < Pow10(len)
    ensures GetTagged([2] + NumBytes(v, len) + rest, len) == Got(Num(v), 1 + (len + 1) / 2)
  {
    hide Unpack, Atoi, Pack, ItoaText, Pow10;
    var b := [2] + NumBytes(v, len) + rest;
    assert b[1..] == NumBytes(v, len) + rest;
    SmallNumber(v, len);
    UnpackItob(v, len, rest);
  }

  /** Reading back what was put restores the value and stops exactly at its end. */
  lemma GetPut(sh: Shape, c: FieldValue, rest: seq<byte>)
    requires Fits(sh, c)
    ensures Get(sh, Put(sh, c) + rest) == Got(c, |Put(sh, c)|)
  {
    hide GetNumber, GetPair, GetVarBcd, GetVarText, GetTagged, GetText, NumBytes, Pack, LeftPack, ToZoned, ToBinary;
    hide AllNibbles, AllRestorable, AllHex, Upper;
    match sh {
      case Number(len) => NumberBack(c.num, len, rest);
      case Stamp => Pow10Small(); PairBack(c.num, c.aux, 2, 3, rest);
      case Amount => LeftPackUnpack(c.text, rest);
      case VarBcd(cap) => VarBcdBack(c.text, cap, rest);
      case Text8(len) => TextBack(c.text, rest);
      case VarText(cap) => VarTextBack(c.text, cap, rest);
      case Raw =>
      case Hex => HexBack(c.text, rest);
      case Tagged => Pow10Small(); TaggedBack(c.num, 2, rest);
    }
  }

  lemma EvenAgain(b: seq<byte>, h: nat)
    requires h <= 4 && |b| >= h && AllDigits(NibbleText(b, 2 * h))
    ensures 0 <= Btoi(b, 2 * h) < Pow10(2 * h)
    ensures NumBytes(Btoi(b, 2 * h), 2 * h) == b[..h]
  {
    ItobBtoi(b, 2 * h);
    SmallNumber(Btoi(b, 2 * h), 2 * h);
  }

  lemma NumberAgain(b: seq<byte>, len: nat)
    requires len <= 8 && |b| >= (len + 1) / 2
    requires AllDigits(Unpack(b, len)) && (len % 2 == 1 ==> b[0] < 16)
    ensures GetNumber(b, len).Got?
    ensures var v := GetNumber(b, len).c.num;
            0 <= v < Pow10(len) && NumBytes(v, len) == b[..(len + 1) / 2]
  {
    if len % 2 == 0 {
      NibbleTextEven(b, len);
      assert len == 2 * (len / 2);
      EvenAgain(b, len / 2);
    } else {
      ItobUnpack(b, len);
      SmallNumber(Atoi(Unpack(b, len)), len);
    }
  }

  /** A slice taken in two steps. */
  lemma TakeInTwo(b: seq<byte>, n1: nat, n2: nat)
    requires n1 + n2 <= |b|
    ensures b[..n1] + b[n1..][..n2] == b[..n1 + n2]
  {}

  lemma PairAgain(b: seq<byte>, h1: nat, h2: nat)
    requires h1 <= 4 && h2 <= 4 && |b| >= h1 + h2
    requires AllDigits(NibbleText(b, 2 * h1)) && AllDigits(NibbleText(b[h1..], 2 * h2))
    ensures GetPair(b, h1, h2).Got?
    ensures var c := GetPair(b, h1, h2).c;
            && 0 <= c.num < Pow10(2 * h1) && 0 <= c.aux < Pow10(2 * h2) && c.text == []
            && NumBytes(c.num, 2 * h1) + NumBytes(c.aux, 2 * h2) == b[..h1 + h2]
  {
    EvenAgain(b, h1);
    EvenAgain(b[h1..], h2);
    TakeInTwo(b, h1, h2);
  }

  lemma VarBcdAgain(b: seq<byte>, cap: nat)
    requires GetVarBcd(b, cap).Got? && cap < 256 && (b[0] % 2 == 1 ==> b[1] < 16)
    ensures var r := GetVarBcd(b, cap);
            [|r.c.text| % 256] + Pack(r.c.text) == b[..r.n]
  {
    hide Pack, Unpack;
    var len: nat := b[0];
    PackUnpack(b[1..], len);
    assert [b[0]] + b[1..][..(len + 1) / 2] == b[..1 + (len + 1) / 2];
  }

  lemma VarTextAgain(b: seq<byte>, cap: nat)
    requires GetVarText(b, cap).Got? && cap < 256 && Ebcdic.Canonical(b[1..1 + b[0] as int])
    ensures var r := GetVarText(b, cap);
            [|r.c.text| % 256] + AtoeText(r.c.text) == b[..r.n]
  {
    hide AtoeText, EtoaText, Plain, Canonical;
    var len: nat := b[0];
    assert b[1..][..len] == b[1..1 + len];
    AtoeEtoa(b[1..1 + len]);
    assert [b[0]] + b[1..1 + len] == b[..1 + len];
  }

  lemma TaggedAgain(b: seq<byte>, len: nat)
    requires 0 < len <= 8 && |b| >= 1 + (len + 1) / 2 && len % 2 == 0
    requires b[0] == 2 && AllDigits(Unpack(b[1..], len))
    ensures var r := GetTagged(b, len);
            r.Got? && 0 <= r.c.num < Pow10(len) && [2] + NumBytes(r.c.num, len) == b[..r.n]
  {
    ItobUnpack(b[1..], len);
    SmallNumber(Atoi(Unpack(b[1..], len)), len);
    assert b[..1] == [2];
    TakeInTwo(b, 1, (len + 1) / 2);
  }

  /** Writing again what was read from canonical bytes gives those bytes. */
  lemma PutGet(sh: Shape, b: seq<byte>)
    requires CanonicalBytes(sh, b)
    ensures Put(sh, Get(sh, b).c) == b[..Get(sh, b).n]
  {
    match sh {
      case Number(len) => NumberAgain(b, len);
      case Stamp => PairAgain(b, 2, 3);
      case Amount => LeftPackOfUnpack(b);
      case VarBcd(cap) => VarBcdAgain(b, cap);
      case Text8(len) => AtoeEtoa(b[..len]);
      case VarText(cap) => VarTextAgain(b, cap);
      case Raw =>
      case Hex => BinaryZoned(b[..8]);
      case Tagged => TaggedAgain(b, 2);
    }
  }
}
