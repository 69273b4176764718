/** Bit maps as sets of field numbers (v_misc.c, bitmap.c and v_util.c). */
module Bitmaps {
  import opened Memory

  type Bitmap = seq<byte>

  /** The byte that holds bit number `bit`, counted from one; bit 0 falls in the first byte. */
  function ByteOf(bit: nat): nat { if bit == 0 then 0 else (bit - 1) / 8 }

  /** 256 >> bit, once the walk has brought bit down to 0..8: the position it tests. */
  function PositionOf(bit: nat): (p: nat)
    ensures p <= 8 && (bit > 0 ==> p < 8)
  {
    8 - (bit - 8 * ByteOf(bit))
  }

  predicate InMap(bm: Bitmap, bit: nat) { |bm| > 0 && bit <= 8 * |bm| }

  predicate IsSet(bm: Bitmap, bit: nat)
    requires InMap(bm, bit)
  {
    Bit(bm[ByteOf(bit)], PositionOf(bit))
  }

  function SetOn(bm: Bitmap, bit: nat): (r: Bitmap)
    requires InMap(bm, bit)
    ensures |r| == |bm|
  {
    var k := ByteOf(bit);
    bm[k := Or(bm[k], Shl1(PositionOf(bit))) % 256]
  }

  function SetOff(bm: Bitmap, bitno: nat): (r: Bitmap)
    requires bitno < 8 * |bm|
    ensures |r| == |bm|
  {
    var k := bitno / 8;
    AndBound(bm[k], 255 - Mask(bitno % 8));
    bm[k := And(bm[k], 255 - Mask(bitno % 8))]
  }

  /** 1 << n for a bit of a byte. */
  function Mask(n: nat): (r: nat)
    requires n < 8
    ensures r == Shl1(n) && 1 <= r <= 128
  {
    MaskBound(n);
    Shl1(n)
  }

  lemma MaskBound(n: nat)
    requires n < 8
    ensures 1 <= Shl1(n) <= 128
  {
    assert Shl1(2) == 4 && Shl1(4) == 16 && Shl1(6) == 64;
  }

  /** The field numbers a map selects. */
  ghost function Fields(bm: Bitmap): set<nat>
  {
    set b: nat | 1 <= b <= 8 * |bm| && IsSet(bm, b)
  }

  /** The bits of a byte with a single zero at position n. */
  lemma HoleBits(n: nat, k: nat)
    requires n < 8 && k < 8
    ensures Bit(255 - Mask(n), k) <==> k != n
  {
    HoleIs(n);
    HoleTail(n, 8, k);
  }

  /** 2^width - 1 without bit n, bit by bit. */
  function Hole(n: nat, width: nat): nat
    requires n < width
    decreases width
  {
    if n == 0 then 2 * Ones(width - 1) else 2 * Hole(n - 1, width - 1) + 1
  }

  function Ones(width: nat): nat { if width == 0 then 0 else 2 * Ones(width - 1) + 1 }

  lemma HoleIs(n: nat)
    requires n < 8
    ensures 255 - Mask(n) == Hole(n, 8)
  {
    HoleSum(n, 8);
    OnesIs(8);
    Shl1Eight();
  }

  lemma {:induction false} OnesIs(width: nat)
    ensures Ones(width) == Shl1(width) - 1
  {
    if width > 0 { OnesIs(width - 1); }
  }

  lemma {:induction false} HoleSum(n: nat, width: nat)
    requires n < width
    ensures Hole(n, width) + Shl1(n) == Ones(width)
    decreases width
  {
    if n > 0 { HoleSum(n - 1, width - 1); }
  }

  lemma {:induction false} OnesBits(width: nat, k: nat)
    requires k < width
    ensures Bit(Ones(width), k)
  {
    if k > 0 { OnesBits(width - 1, k - 1); }
  }

  lemma {:induction false} HoleTail(n: nat, width: nat, k: nat)
    requires n < width && k < width
    ensures Bit(Hole(n, width), k) <==> k != n
    decreases width
  {
    if n == 0 {
      if k > 0 { OnesBits(width - 1, k - 1); }
    } else if k > 0 {
      HoleTail(n - 1, width - 1, k - 1);
    }
  }

  /** Field numbers and (byte, position) pairs correspond. */
  lemma Position(b: nat, c: nat)
    requires b > 0 && c > 0 && ByteOf(b) == ByteOf(c) && PositionOf(b) == PositionOf(c)
    ensures b == c
  {}

  lemma BitZero(bm: Bitmap)
    requires |bm| > 0
    ensures !IsSet(bm, 0)
  {
    Shl1Eight();
    BitAbove(bm[0], 8);
  }

  lemma {:induction false} BitAbove(x: nat, n: nat)
    requires x < Shl1(n)
    ensures !Bit(x, n)
  {
    if n > 0 { BitAbove(x / 2, n - 1); }
  }

  /** Switching bit 0 on changes nothing: 256 does not fit the byte. */
  lemma SetOnZero(bm: Bitmap)
    requires |bm| > 0
    ensures SetOn(bm, 0) == bm
  {
    hide Or, Shl1;
    Shl1Eight();
    OrHigh(bm[0]);
  }

  lemma OrHigh(x: byte)
    ensures Or(x, 256) == x + 256
  {
    hide Or;
    Shl1Eight();
    OrAbove(x, 8);
  }

  lemma {:induction false} OrAbove(x: nat, n: nat)
    requires x < Shl1(n)
    ensures Or(x, Shl1(n)) == x + Shl1(n)
  {
    if n > 0 {
      OrAbove(x / 2, n - 1);
    }
  }

  lemma SetOnBit(bm: Bitmap, bit: nat, b: nat)
    requires 1 <= bit <= 8 * |bm| && 1 <= b <= 8 * |bm|
    ensures IsSet(SetOn(bm, bit), b) <==> IsSet(bm, b) || b == bit
  {
    hide Or, Shl1, Bit;
    var k := ByteOf(bit);
    if ByteOf(b) == k {
      MaskBound(PositionOf(bit));
      OrByte(bm[k], Shl1(PositionOf(bit)));
      OrBits(bm[k], Shl1(PositionOf(bit)), PositionOf(b));
      Shl1Bits(PositionOf(bit), PositionOf(b));
      if PositionOf(b) == PositionOf(bit) { Position(b, bit); }
    }
  }

  /** setBitOn is insertion. */
  lemma SetOnFields(bm: Bitmap, bit: nat)
    requires 1 <= bit <= 8 * |bm|
    ensures Fields(SetOn(bm, bit)) == Fields(bm) + {bit}
  {
    forall b: nat | 1 <= b <= 8 * |bm| ensures IsSet(SetOn(bm, bit), b) <==> IsSet(bm, b) || b == bit {
      SetOnBit(bm, bit, b);
    }
  }

  /** The field that setBitOff(bitno) really clears. */
  function Cleared(bitno: nat): nat { 8 * (bitno / 8) + 8 - bitno % 8 }

  lemma SetOffBit(bm: Bitmap, bitno: nat, b: nat)
    requires bitno < 8 * |bm| && 1 <= b <= 8 * |bm|
    ensures IsSet(SetOff(bm, bitno), b) <==> IsSet(bm, b) && b != Cleared(bitno)
  {
    var k := bitno / 8;
    var c := Cleared(bitno);
    assert ByteOf(c) == k && PositionOf(c) == bitno % 8;
    if ByteOf(b) == k {
      AndBits(bm[k], 255 - Mask(bitno % 8), PositionOf(b));
      HoleBits(bitno % 8, PositionOf(b));
      if PositionOf(b) == PositionOf(c) { Position(b, c); }
    }
  }

  /** setBitOff removes one field, and numbers the bits of a byte from the other end. */
  lemma SetOffFields(bm: Bitmap, bitno: nat)
    requires bitno < 8 * |bm|
    ensures Fields(SetOff(bm, bitno)) == Fields(bm) - {Cleared(bitno)}
  {
    forall b: nat | 1 <= b <= 8 * |bm| ensures IsSet(SetOff(bm, bitno), b) <==> IsSet(bm, b) && b != Cleared(bitno) {
      SetOffBit(bm, bitno, b);
    }
  }

  /** A map is determined by the fields it selects. */
  lemma SameFields(a: Bitmap, b: Bitmap)
    requires |a| == |b| && Fields(a) == Fields(b)
    ensures a == b
  {
    forall k | 0 <= k < |a| ensures a[k] == b[k] {
      forall n: nat ensures Bit(a[k], n) == Bit(b[k], n) {
        if n < 8 {
          var f := 8 * k + 8 - n;
          assert ByteOf(f) == k && PositionOf(f) == n;
          assert IsSet(a, f) <==> f in Fields(a);
          assert IsSet(b, f) <==> f in Fields(b);
        } else {
          ByteAbove(a[k], n);
          ByteAbove(b[k], n);
        }
      }
      SameBits(a[k], b[k]);
    }
  }

  lemma ByteAbove(x: byte, n: nat)
    requires n >= 8
    ensures !Bit(x, n)
  {
    Shl1Eight();
    Shl1Monotone(8, n);
    BitAbove(x, n);
  }

  lemma {:induction false} Shl1Monotone(a: nat, b: nat)
    requires a <= b
    ensures Shl1(a) <= Shl1(b)
  {
    if a < b { Shl1Monotone(a, b - 1); }
  }

  lemma ZeroFields(n: nat)
    ensures Fields(Zeros(n)) == {}
  {
    forall b: nat | 1 <= b <= 8 * n ensures !IsSet(Zeros(n), b) { ZeroBits(PositionOf(b)); }
  }

  // ---- the walking loops ------------------------------------------------------------------------

  /** isBitSet: walks a byte pointer while bit > 8. */
  method IsBitSet(bitmap: array<byte>, at: nat, bit: nat) returns (r: bool)
    requires at < bitmap.Length && at + ByteOf(bit) < bitmap.Length
    ensures r == Bit(bitmap[at + ByteOf(bit)], PositionOf(bit))
  {
    var p, b := at, bit;
    while b > 8
      invariant at <= p && b + 8 * (p - at) == bit && (if bit > 0 then b > 0 else b == 0)
    {
      b, p := b - 8, p + 1;
    }
    r := Bit(bitmap[p], 8 - b);
  }

  /** setBitOn: the same walk, then *bitmap |= 256 >> bit. */
  method SetBitOn(bitmap: array<byte>, at: nat, bit: nat)
    requires at < bitmap.Length && at + ByteOf(bit) < bitmap.Length
    modifies bitmap
    ensures bitmap[..] == SetOn8(old(bitmap[..]), at, bit)
  {
    var p, b := at, bit;
    while b > 8
      modifies {}
      invariant at <= p && b + 8 * (p - at) == bit && (if bit > 0 then b > 0 else b == 0)
    {
      b, p := b - 8, p + 1;
    }
    bitmap[p] := Or(bitmap[p], Shl1(8 - b)) % 256;
  }

  /** setBitOff */
  method SetBitOff(bitmap: array<byte>, at: nat, bitno: nat)
    requires at + bitno / 8 < bitmap.Length
    modifies bitmap
    ensures bitmap[..] == SetOff8(old(bitmap[..]), at, bitno)
  {
    var p := at + bitno / 8;
    AndBound(bitmap[p], 255 - Mask(bitno % 8));
    bitmap[p] := And(bitmap[p], 255 - Mask(bitno % 8));
  }

  /** A bit switched on in a map that lies at `at` in a larger buffer. */
  function SetOn8(mem: seq<byte>, at: nat, bit: nat): (r: seq<byte>)
    requires at + ByteOf(bit) < |mem|
    ensures |r| == |mem|
  {
    var p := at + ByteOf(bit);
    mem[p := Or(mem[p], Shl1(PositionOf(bit))) % 256]
  }

  function SetOff8(mem: seq<byte>, at: nat, bitno: nat): (r: seq<byte>)
    requires at + bitno / 8 < |mem|
    ensures |r| == |mem|
  {
    var p := at + bitno / 8;
    AndBound(mem[p], 255 - Mask(bitno % 8));
    mem[p := And(mem[p], 255 - Mask(bitno % 8))]
  }

  /** Editing a map inside a buffer edits that map and nothing else. */
  lemma EditInBuffer(mem: seq<byte>, at: nat, len: nat, bit: nat)
    requires at + len <= |mem| && 1 <= bit <= 8 * len
    ensures SetOn8(mem, at, bit) == Overwrite(mem, at, SetOn(mem[at..at + len], bit))
    ensures bit < 8 * len ==> SetOff8(mem, at, bit) == Overwrite(mem, at, SetOff(mem[at..at + len], bit))
  {
    OverwriteIs(mem, SetOn8(mem, at, bit), at, SetOn(mem[at..at + len], bit));
    if bit < 8 * len {
      OverwriteIs(mem, SetOff8(mem, at, bit), at, SetOff(mem[at..at + len], bit));
    }
  }

  /** make_bitmap: switches on every number of a list closed by -1. */
  method MakeBitmap(bitmap: array<byte>, index: seq<int>)
    requires bitmap.Length == 16 && IndexList(index)
    modifies bitmap
    ensures Fields(bitmap[..]) == Fields(old(bitmap[..])) + Listed(index)
  {
    var i, topbitSet := 0, false;
    while index[i] != -1
      invariant 0 <= i < |index|
      invariant Fields(bitmap[..]) == Fields(old(bitmap[..])) + (set k | 0 <= k < i :: index[k])
      decreases |index| - i
    {
      if index[i] > 64 { topbitSet := true; }
      ghost var was := bitmap[..];
      SetBitOn(bitmap, 0, index[i]);
      assert bitmap[..] == SetOn(was, index[i]);
      SetOnFields(was, index[i]);
      assert (set k | 0 <= k < i + 1 :: index[k]) == (set k | 0 <= k < i :: index[k]) + {index[i]};
      i := i + 1;
    }
    if topbitSet {
      ghost var was := bitmap[..];
      SetBitOn(bitmap, 0, 0);
      SetOnZero(was);
      assert bitmap[..] == SetOn(was, 0);
    }
  }

  /** A list of field numbers closed by -1. */
  predicate IndexList(index: seq<int>)
  {
    |index| > 0 && index[|index| - 1] == -1 && forall k :: 0 <= k < |index| - 1 ==> 1 <= index[k] <= 128
  }

  ghost function Listed(index: seq<int>): set<int>
    requires |index| > 0
  {
    set k | 0 <= k < |index| - 1 :: index[k]
  }

  /** What adjust_bitmap really copies: the bits one below the listed numbers. */
  ghost function Below(list: seq<int>): set<int>
  {
    set k | 0 <= k < |list| :: list[k] - 1
  }

  /** adjust_bitmap on the eight-byte maps of the switch: a list of positions closed by a number <= 0. */
  method AdjustBitmap(obp: array<byte>, at: nat, ibp: Bitmap, list: seq<int>)
    requires at + 8 <= obp.Length && |ibp| >= 8
    requires forall k :: 0 <= k < |list| ==> 1 <= list[k] <= 64
    modifies obp
    ensures obp[..at] == old(obp[..at]) && obp[at + 8..] == old(obp[at + 8..])
    ensures Fields(obp[at..at + 8]) == old(Fields(obp[at..at + 8])) + (Fields(ibp) * Below(list))
  {
    var i := 0;
    while i < |list|
      invariant 0 <= i <= |list|
      invariant obp[..at] == old(obp[..at]) && obp[at + 8..] == old(obp[at + 8..])
      invariant Fields(obp[at..at + 8]) == old(Fields(obp[at..at + 8])) + (Fields(ibp) * Below(list[..i]))
    {
      var b := list[i] - 1;
      assert Below(list[..i + 1]) == Below(list[..i]) + {b} by {
        assert list[..i + 1] == list[..i] + [list[i]];
      }
      if b == 0 { BitZero(ibp); }
      assert IsSet(ibp, b) <==> b in Fields(ibp);
      if IsSet(ibp, b) {
        ghost var was := obp[..];
        EditInBuffer(was, at, 8, b);
        SetBitOn(obp, at, b);
        assert obp[at..at + 8] == SetOn(was[at..at + 8], b);
        SetOnFields(was[at..at + 8], b);
      }
      i := i + 1;
    }
    assert list[..i] == list;
  }
}
