/** Binary bytes as displayed hexadecimal (v_misc.c, toZoned and toBinary). */
module Zoned {
  import opened Memory

  function HexChar(n: nat): byte
    requires n < 16
  {
    if n > 9 then n - 10 + 0x41 else n + 0x30
  }

  predicate IsHex(c: byte) { 0x30 <= c <= 0x39 || 0x41 <= c <= 0x46 || 0x61 <= c <= 0x66 }

  function HexValue(c: byte): (n: nat)
    requires IsHex(c)
    ensures n < 16
  {
    if c <= 0x39 then c - 0x30 else if c <= 0x46 then c - 0x41 + 10 else c - 0x61 + 10
  }

  function Upper(c: byte): byte { if 0x61 <= c <= 0x66 then c - 0x20 else c }

  predicate AllHex(s: Text) { forall i :: 0 <= i < |s| ==> IsHex(s[i]) }

  /** The hexadecimal characters before the first other one. */
  function HexPrefix(s: Text): (n: nat)
    ensures n <= |s| && AllHex(s[..n])
    ensures n < |s| ==> !IsHex(s[n])
  {
    if s == [] || !IsHex(s[0]) then 0
    else
      var n := 1 + HexPrefix(s[1..]);
      assert s[..n] == [s[0]] + s[1..][..n - 1];
      n
  }

  function ZonedAt(b: seq<byte>, i: nat): byte
    requires i / 2 < |b|
  {
    HexChar(if i % 2 == 1 then b[i / 2] % 16 else b[i / 2] / 16)
  }

  /** toZoned: two characters a byte, high nibble first. */
  function ToZoned(b: seq<byte>): (r: Text)
    ensures |r| == 2 * |b|
  {
    seq(2 * |b|, i requires 0 <= i < 2 * |b| => ZonedAt(b, i))
  }

  function BinaryAt(s: Text, i: nat): byte
    requires AllHex(s) && 2 * i < |s|
  {
    if 2 * i + 1 < |s| then 16 * HexValue(s[2 * i]) + HexValue(s[2 * i + 1]) else 16 * HexValue(s[2 * i])
  }

  /** The bytes that toBinary writes: it gives up at the first character that is not hexadecimal. */
  function ToBinary(s: Text): (r: seq<byte>)
    ensures |r| <= (|s| + 1) / 2
    ensures AllHex(s) ==> |r| == (|s| + 1) / 2
  {
    var h := s[..HexPrefix(s)];
    seq((|h| + 1) / 2, i requires 0 <= i < (|h| + 1) / 2 => BinaryAt(h, i))
  }

  lemma HexPrefixAll(s: Text)
    requires AllHex(s)
    ensures s[..HexPrefix(s)] == s
  {}

  lemma ZonedPair(b: seq<byte>, i: nat)
    requires i < |b|
    ensures ZonedAt(b, 2 * i) == HexChar(b[i] / 16) && ZonedAt(b, 2 * i + 1) == HexChar(b[i] % 16)
  {}

  lemma BinaryZonedAt(b: seq<byte>, i: nat)
    requires i < |b| && AllHex(ToZoned(b))
    ensures BinaryAt(ToZoned(b), i) == b[i]
  {
    ZonedPair(b, i);
    assert ToZoned(b)[2 * i] == ZonedAt(b, 2 * i) && ToZoned(b)[2 * i + 1] == ZonedAt(b, 2 * i + 1);
  }

  /** A byte is displayed as two digits, or letters from A on. */
  lemma ZonedByte(b: byte)
    ensures var z := ToZoned([b]);
            && |z| == 2
            && z[0] == (if b < 0xA0 then 0x30 + b / 16 else 0x41 + b / 16 - 10)
            && z[1] == (if b % 16 < 10 then 0x30 + b % 16 else 0x41 + b % 16 - 10)
  {
    ZonedPair([b], 0);
  }

  /** toBinary undoes toZoned on every byte string. */
  lemma BinaryZoned(b: seq<byte>)
    ensures AllHex(ToZoned(b)) && ToBinary(ToZoned(b)) == b
  {
    var z := ToZoned(b);
    assert forall i :: 0 <= i < |z| ==> z[i] == ZonedAt(b, i);
    HexPrefixAll(z);
    forall i | 0 <= i < |b| ensures ToBinary(z)[i] == b[i] { BinaryZonedAt(b, i); }
  }

  lemma ZonedBinaryAt(s: Text, b: seq<byte>, k: nat)
    requires AllHex(s) && |s| == 2 * |b| && k < |s|
    requires b[k / 2] == BinaryAt(s, k / 2)
    ensures ZonedAt(b, k) == Upper(s[k])
  {
    hide HexValue, HexChar, Upper, IsHex;
    var i := k / 2;
    ZonedPair(b, i);
    HexCharBack(s[2 * i]);
    HexCharBack(s[2 * i + 1]);
    assert b[i] / 16 == HexValue(s[2 * i]) && b[i] % 16 == HexValue(s[2 * i + 1]);
    assert k == 2 * i || k == 2 * i + 1;
  }

  lemma HexCharBack(c: byte)
    requires IsHex(c)
    ensures HexValue(c) < 16 && HexChar(HexValue(c)) == Upper(c)
  {}

  /** The other order gives the same text in upper case. */
  lemma ZonedBinary(s: Text)
    requires AllHex(s) && |s| % 2 == 0
    ensures |ToZoned(ToBinary(s))| == |s|
    ensures forall k :: 0 <= k < |s| ==> ToZoned(ToBinary(s))[k] == Upper(s[k])
  {
    HexPrefixAll(s);
    var b := ToBinary(s);
    forall k | 0 <= k < |s| ensures ToZoned(b)[k] == Upper(s[k]) {
      assert b[k / 2] == BinaryAt(s, k / 2);
      ZonedBinaryAt(s, b, k);
    }
  }

  /** toZoned on a buffer: `odd` alternates between the two nibbles of *src. */
  method ToZonedScan(src: array<byte>, at: nat, zonedlen: nat) returns (dest: Text)
    requires zonedlen % 2 == 0 && at + zonedlen / 2 <= src.Length
    ensures dest == ToZoned(src[at..at + zonedlen / 2])
  {
    ghost var b := src[at..at + zonedlen / 2];
    var out := new byte[zonedlen];
    var odd, s, i := false, at, 0;
    while i < zonedlen
      modifies out
      invariant 0 <= i <= zonedlen && odd == (i % 2 == 1) && s == at + i / 2
      invariant forall k :: 0 <= k < i ==> out[k] == ZonedAt(b, k)
    {
      assert src[s] == b[i / 2];
      var num := if odd then src[s] % 16 else src[s] / 16;
      if odd { s := s + 1; }
      out[i] := if num > 9 then num - 10 + 0x41 else num + 0x30;
      odd, i := !odd, i + 1;
    }
    assert out[..] == ToZoned(b);
    dest := out[..];
  }

  /** toBinary on a buffer, with the early return at a character that is not hexadecimal. */
  method ToBinaryScan(dest: array<byte>, at: nat, src: Text)
    requires at + (|src| + 1) / 2 <= dest.Length
    modifies dest
    ensures dest[..] == Overwrite(old(dest[..]), at, ToBinary(src))
  {
    hide Or, HexValue, IsHex, Overwrite;
    ghost var h := src[..HexPrefix(src)];
    var odd, d, i := false, at, 0;
    while i < |src| && IsHex(src[i])
      invariant 0 <= i <= |h| && odd == (i % 2 == 1) && d == at + i / 2
      invariant forall k :: 0 <= k < i / 2 ==> dest[at + k] == BinaryAt(h, k)
      invariant odd ==> dest[d] == 16 * HexValue(h[i - 1])
      invariant forall k :: 0 <= k < dest.Length && !(at <= k < at + (i + 1) / 2) ==> dest[k] == old(dest[k])
    {
      assert src[i] == h[i];
      var num := HexValue(src[i]);
      if odd {
        OrNibbles(HexValue(h[i - 1]), num);
        dest[d] := Or(dest[d], num);
        d := d + 1;
      } else {
        dest[d] := 16 * num;
      }
      odd, i := !odd, i + 1;
    }
    assert i == |h|;
    forall k | 0 <= k < (|h| + 1) / 2 ensures dest[at + k] == BinaryAt(h, k) {}
    OverwriteIs(old(dest[..]), dest[..], at, ToBinary(src));
  }
}
