/** The buffer-walking conversion routines of v_misc.c, each proved against its text in Digits. */
module Conversions {
  import opened Memory
  import opened Digits

  // ---- __itoa -----------------------------------------------------------------------------------

  /** v divided by ten n times. */
  function Quotient(v: nat, n: nat): nat
  {
    if n == 0 then v else Quotient(v / 10, n - 1)
  }

  lemma QuotientFirst(v: nat)
    ensures Quotient(v, 0) == v && Quotient(v, 1) == v / 10
  {
    assert Quotient(v, 1) == Quotient(v / 10, 0);
  }

  lemma {:induction false} QuotientStep(v: nat, n: nat)
    ensures Quotient(v, n + 1) == Quotient(v, n) / 10
  {
    if n > 0 { QuotientStep(v / 10, n - 1); }
  }

  lemma {:induction false} QuotientZero(v: nat, n: nat)
    ensures Quotient(v, n) == 0 <==> v < Pow10(n)
  {
    if n > 0 { QuotientZero(v / 10, n - 1); }
  }

  lemma {:induction false} DecimalAt(v: nat, n: nat, j: nat)
    requires j < n
    ensures Decimal(v, n)[j] == 0x30 + Quotient(v, n - 1 - j) % 10
  {
    if j < n - 1 { DecimalAt(v / 10, n - 1, j); }
  }

  /** Reading the digits from the low end of the full text gives what __itoa copies out. */
  lemma {:induction false} ItoaAt(v: nat, tam: nat, n: nat, j: nat)
    requires j < tam <= n && Quotient(v, n) == 0
    requires n == tam || Quotient(v, n - 1) > 0
    ensures ItoaText(v, tam)[j] == 0x30 + Quotient(v, n - 1 - j) % 10
    decreases n
  {
    QuotientZero(v, n);
    if n == tam {
      DecimalAt(v, tam, j);
    } else {
      QuotientZero(v, n - 1);
      Pow10Grows(tam, n - 1);
      ItoaAt(v / 10, tam, n - 1, j);
    }
  }

  lemma Pow10Ten()
    ensures Pow10(10) == 10_000_000_000
  {
    assert Pow10(2) == 100;
    assert Pow10(4) == 10_000;
    assert Pow10(6) == 1_000_000;
    assert Pow10(8) == 100_000_000;
  }

  /** Turns work[..n] round in place. */
  method Reverse(work: array<byte>, n: nat)
    requires n <= work.Length
    modifies work
    ensures forall k :: 0 <= k < n ==> work[k] == old(work[n - 1 - k])
    ensures forall k :: n <= k < work.Length ==> work[k] == old(work[k])
  {
    var i := 0;
    while i < n / 2
      invariant 0 <= i <= n / 2
      invariant forall k :: 0 <= k < i ==> work[k] == old(work[n - 1 - k]) && work[n - 1 - k] == old(work[k])
      invariant forall k :: i <= k < n - i ==> work[k] == old(work[k])
      invariant forall k :: n <= k < work.Length ==> work[k] == old(work[k])
    {
      var temp := work[n - 1 - i];
      work[n - 1 - i] := work[i];
      work[i] := temp;
      i := i + 1;
    }
  }

  /** The digits of v, low end first, zero-padded to at least tam characters. */
  method DigitsReversed(v: nat, work: array<byte>, tam: nat) returns (i: nat)
    requires v < 0x1_0000_0000 && work.Length == 512 && tam <= 500
    modifies work
    ensures 1 <= i <= 512 && tam <= i && Quotient(v, i) == 0
    ensures i == tam || Quotient(v, i - 1) > 0 || (i == 1 && tam == 0)
    ensures forall k :: 0 <= k < i ==> work[k] == 0x30 + Quotient(v, k) % 10
  {
    hide Quotient, Pow10;
    Pow10Ten();
    QuotientZero(v, 10);
    QuotientFirst(v);
    work[0] := 0x30 + v % 10;
    var value := v / 10;
    i := 1;
    while value > 0
      invariant 1 <= i <= 10 && value == Quotient(v, i)
      invariant forall k :: 0 <= k < i ==> work[k] == 0x30 + Quotient(v, k) % 10
      invariant i > 1 ==> Quotient(v, i - 1) > 0
      decreases value
    {
      work[i] := 0x30 + value % 10;
      QuotientStep(v, i);
      i := i + 1;
      value := value / 10;
    }
    ghost var digits := i;
    while i < tam
      invariant digits <= i && (i <= tam || i == digits) && i <= 512 && Quotient(v, i) == 0
      invariant forall k :: 0 <= k < i ==> work[k] == 0x30 + Quotient(v, k) % 10
    {
      work[i] := 0x30;
      QuotientStep(v, i);
      i := i + 1;
    }
  }

  /** __itoa: divisions by ten, zero padding, reversal in place, then a copy of tam characters. */
  method Itoa(v: nat, dest: array<byte>, at: nat, tam: nat)
    requires v < 0x1_0000_0000 && at + tam <= dest.Length && tam <= 500
    modifies dest
    ensures dest[..] == Overwrite(old(dest[..]), at, ItoaText(v, tam))
  {
    var work := new byte[512];
    var n := DigitsReversed(v, work, tam);
    Reverse(work, n);
    forall j | 0 <= j < tam ensures work[j] == ItoaText(v, tam)[j] { ItoaAt(v, tam, n, j); }
    assert work[..tam] == ItoaText(v, tam);
    Copy(dest, at, work[..tam]);
  }

  // ---- BCD --------------------------------------------------------------------------------------

  /** The two characters that end at position s are byte n of the packed form. */
  lemma PackedPair(src: Text, n: nat, s: nat)
    requires 0 < s < |src| && s - 1 == 2 * n - |src| % 2
    ensures n < (|src| + 1) / 2
    ensures Or(16 * (Sub30(src[s - 1]) % 16), Sub30(src[s])) == PackAt(src, n)
  {
    hide Or, Sub30;
    OrByte(16 * (Sub30(src[s - 1]) % 16), Sub30(src[s]));
  }

  /** chartobcd: packs len characters of src at dst[at..]; returns the bytes written. */
  method Chartobcd(src: Text, dst: array<byte>, at: nat) returns (n: nat)
    requires at + (|src| + 1) / 2 <= dst.Length
    modifies dst
    ensures n == (|src| + 1) / 2
    ensures dst[..] == Overwrite(old(dst[..]), at, Pack(src))
  {
    hide Or, PackAt, Pack, PackByte, Overwrite;
    var s, l := 0, |src|;
    n := 0;
    if |src| % 2 == 1 {
      FirstOfOdd(src);
      dst[at] := Sub30(src[0]);
      s, n, l := 1, 1, |src| - 1;
    }
    while l > 0
      invariant l % 2 == 0 && 0 <= l && s + l == |src| && s == 2 * n - |src| % 2 && n + l / 2 == (|src| + 1) / 2
      invariant forall i :: 0 <= i < n ==> dst[at + i] == PackAt(src, i)
      invariant forall k :: 0 <= k < dst.Length && !(at <= k < at + n) ==> dst[k] == old(dst[k])
    {
      dst[at + n] := 16 * (Sub30(src[s]) % 16);
      s := s + 1;
      PackedPair(src, n, s);
      dst[at + n] := Or(dst[at + n], Sub30(src[s]));
      s, n, l := s + 1, n + 1, l - 2;
    }
    PackCells(src);
    OverwriteIs(old(dst[..]), dst[..], at, Pack(src));
  }

  lemma FirstOfOdd(src: Text)
    requires |src| % 2 == 1
    ensures PackAt(src, 0) == Sub30(src[0])
  {}

  lemma PackCells(src: Text)
    ensures forall i :: 0 <= i < (|src| + 1) / 2 ==> Pack(src)[i] == PackAt(src, i)
  {}

  /** itob: the decimal text of an int, read as unsigned, packed. */
  method Itob(dst: array<byte>, at: nat, v: int, len: nat) returns (n: nat)
    requires len <= 32 && at + (len + 1) / 2 <= dst.Length
    modifies dst
    ensures n == (len + 1) / 2
    ensures dst[..] == Overwrite(old(dst[..]), at, NumBytes(v, len))
  {
    var buf := new byte[32](_ => 0);
    Itoa(Unsigned(v), buf, 0, len);
    assert buf[..len] == ItoaText(Unsigned(v), len);
    n := Chartobcd(buf[..len], dst, at);
  }

  lemma UnpackedFirst(b: seq<byte>, len: nat)
    requires len % 2 == 1 && |b| >= (len + 1) / 2
    ensures UnpackAt(b, len, 0) == b[0] % 16 + 0x30
  {}

  /** Byte n of a packed text holds the characters at k and k + 1. */
  lemma UnpackedPair(b: seq<byte>, len: nat, k: nat, n: nat)
    requires |b| >= (len + 1) / 2 && k == 2 * n - len % 2 && k + 1 < len
    ensures n < |b| && UnpackAt(b, len, k) == b[n] / 16 + 0x30 && UnpackAt(b, len, k + 1) == b[n] % 16 + 0x30
  {
    NibblePair(b, n);
  }

  lemma UnpackedCells(b: seq<byte>, len: nat, text: Text)
    requires |b| >= (len + 1) / 2 && |text| == len && forall i :: 0 <= i < len ==> text[i] == UnpackAt(b, len, i)
    ensures text == Unpack(b, len)
  {}

  /** bcdtochar: unpacks len characters from src[at..]; returns them and the bytes read. */
  method Bcdtochar(src: array<byte>, at: nat, len: nat) returns (text: Text, n: nat)
    requires at + (len + 1) / 2 <= src.Length
    ensures text == Unpack(src[at..], len) && n == (len + 1) / 2
  {
    hide UnpackAt, Unpack;
    var d := new byte[len + 2];
    var k, l := 0, len;
    n := 0;
    if len % 2 == 1 {
      UnpackedFirst(src[at..], len);
      d[0] := src[at] % 16 + 0x30;
      k, n, l := 1, 1, len - 1;
    }
    while l > 0
      invariant l % 2 == 0 && 0 <= l && k + l == len && k == 2 * n - len % 2 && n + l / 2 == (len + 1) / 2
      invariant forall i :: 0 <= i < k ==> d[i] == UnpackAt(src[at..], len, i)
    {
      UnpackedPair(src[at..], len, k, n);
      d[k] := src[at + n] / 16 + 0x30;
      d[k + 1] := src[at + n] % 16 + 0x30;
      k, n, l := k + 2, n + 1, l - 2;
    }
    text := d[..len];
    UnpackedCells(src[at..], len, text);
  }

  /** btoi: reads len nibbles from the left, then atoi. */
  method BtoiScan(src: array<byte>, at: nat, len: nat) returns (v: int)
    requires at + (len + 1) / 2 <= src.Length
    ensures v == Btoi(src[at..], len)
  {
    var buf := new byte[len + 1];
    var i := 0;
    while i < len
      invariant 0 <= i <= len
      invariant forall k :: 0 <= k < i ==> buf[k] == NibbleChar(src[at..], k)
    {
      var ind, posIn := i / 2, i % 2;
      var alg := if posIn == 0 then src[at + ind] / 16 + 0x30 else src[at + ind] % 16 + 0x30;
      buf[i] := alg;
      i := i + 1;
    }
    assert buf[..len] == NibbleText(src[at..], len);
    v := Atoi(buf[..len]);
  }
}
