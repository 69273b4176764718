/** Bytes, character strings and the C bit operators that the switch applies to them. */
module Memory {

  type byte = x: int | 0 <= x < 256

  /** The characters of a C string, without the closing NUL. */
  type Text = seq<byte>

  function Zeros(n: nat): (r: seq<byte>)
    ensures |r| == n && forall i :: 0 <= i < n ==> r[i] == 0
  {
    seq(n, _ => 0)
  }

  /** What memcpy(dst, s, n) copies out of a zero-filled character array that holds the string s. */
  function Fixed(s: Text, n: nat): (r: seq<byte>)
    ensures |r| == n
    ensures |s| == n ==> r == s
  {
    if |s| >= n then s[..n] else s + Zeros(n - |s|)
  }

  /** The cells of `mem` from `at` on replaced by `s`. */
  function Overwrite(mem: seq<byte>, at: nat, s: seq<byte>): (r: seq<byte>)
    requires at + |s| <= |mem|
    ensures |r| == |mem|
  {
    mem[..at] + s + mem[at + |s|..]
  }

  lemma OverwriteIs(before: seq<byte>, after: seq<byte>, at: nat, s: seq<byte>)
    requires at + |s| <= |before| == |after|
    requires forall k :: 0 <= k < |s| ==> after[at + k] == s[k]
    requires forall k :: 0 <= k < |before| && !(at <= k < at + |s|) ==> after[k] == before[k]
    ensures after == Overwrite(before, at, s)
  {}

  lemma Assoc(a: seq<byte>, b: seq<byte>, c: seq<byte>)
    ensures a + b + c == a + (b + c)
  {}

  /** memcpy of a byte string into a buffer. */
  method Copy(dst: array<byte>, at: nat, s: seq<byte>)
    requires at + |s| <= dst.Length
    modifies dst
    ensures dst[..] == Overwrite(old(dst[..]), at, s)
    ensures dst[at..at + |s|] == s
    ensures forall k :: 0 <= k < dst.Length && !(at <= k < at + |s|) ==> dst[k] == old(dst[k])
  {
    var i := 0;
    while i < |s|
      invariant 0 <= i <= |s|
      invariant forall k :: 0 <= k < i ==> dst[at + k] == s[k]
      invariant forall k :: 0 <= k < dst.Length && !(at <= k < at + i) ==> dst[k] == old(dst[k])
    {
      dst[at + i] := s[i];
      i := i + 1;
    }
  }

  // ---- bits of a machine word -------------------------------------------------------------------

  /** 1 << n */
  function Shl1(n: nat): (r: nat)
    ensures r > 0
  {
    if n == 0 then 1 else 2 * Shl1(n - 1)
  }

  /** Bit n of x, counted from the low end. */
  predicate Bit(x: nat, n: nat)
  {
    if n == 0 then x % 2 == 1 else Bit(x / 2, n - 1)
  }

  /** a | b */
  function Or(a: nat, b: nat): nat
    decreases a + b
  {
    if a == 0 && b == 0 then 0
    else 2 * Or(a / 2, b / 2) + (if a % 2 == 1 || b % 2 == 1 then 1 else 0)
  }

  /** a & b */
  function And(a: nat, b: nat): nat
    decreases a + b
  {
    if a == 0 && b == 0 then 0
    else 2 * And(a / 2, b / 2) + (if a % 2 == 1 && b % 2 == 1 then 1 else 0)
  }

  lemma {:induction false} OrBits(a: nat, b: nat, n: nat)
    ensures Bit(Or(a, b), n) == (Bit(a, n) || Bit(b, n))
    decreases n
  {
    var r := Or(a, b);
    if a == 0 && b == 0 {
      ZeroBits(n);
    } else if n > 0 {
      assert r / 2 == Or(a / 2, b / 2);
      OrBits(a / 2, b / 2, n - 1);
    }
  }

  lemma {:induction false} AndBits(a: nat, b: nat, n: nat)
    ensures Bit(And(a, b), n) == (Bit(a, n) && Bit(b, n))
    decreases n
  {
    var r := And(a, b);
    if a == 0 && b == 0 {
      ZeroBits(n);
    } else if n > 0 {
      assert r / 2 == And(a / 2, b / 2);
      AndBits(a / 2, b / 2, n - 1);
    }
  }

  lemma {:induction false} ZeroBits(n: nat)
    ensures !Bit(0, n)
  {
    if n > 0 { ZeroBits(n - 1); }
  }

  lemma {:induction false} Shl1Bits(n: nat, k: nat)
    ensures Bit(Shl1(n), k) <==> k == n
    decreases n
  {
    if n == 0 {
      if k > 0 { ZeroBits(k - 1); }
    } else if k > 0 {
      Shl1Bits(n - 1, k - 1);
    }
  }

  lemma {:induction false} OrBound(a: nat, b: nat, n: nat)
    requires a < Shl1(n) && b < Shl1(n)
    ensures Or(a, b) < Shl1(n)
    decreases n
  {
    if n > 0 && !(a == 0 && b == 0) { OrBound(a / 2, b / 2, n - 1); }
  }

  lemma Shl1Eight()
    ensures Shl1(8) == 256
  {
    assert Shl1(2) == 4;
    assert Shl1(4) == 16;
    assert Shl1(6) == 64;
  }

  lemma OrByte(a: byte, b: byte)
    ensures Or(a, b) < 256
  {
    Shl1Eight();
    OrBound(a, b, 8);
  }

  lemma {:induction false} AndBound(a: nat, b: nat)
    ensures And(a, b) <= a
    decreases a + b
  {
    if !(a == 0 && b == 0) { AndBound(a / 2, b / 2); }
  }

  /** Two words with the same bits are the same word. */
  lemma {:induction false} SameBits(a: nat, b: nat)
    requires forall n: nat :: Bit(a, n) == Bit(b, n)
    ensures a == b
    decreases a + b
  {
    if a != 0 || b != 0 {
      assert Bit(a, 0) == Bit(b, 0);
      forall n: nat ensures Bit(a / 2, n) == Bit(b / 2, n) {
        assert Bit(a, n + 1) == Bit(b, n + 1);
      }
      SameBits(a / 2, b / 2);
    }
  }

  /** An or of disjoint nibbles is their sum: how two packed digits share a byte. */
  lemma OrNibbles(hi: nat, lo: nat)
    requires lo < 16
    ensures Or(16 * hi, lo) == 16 * hi + lo
  {
    OrHalf(8 * hi, lo);
    OrOctets(hi, lo / 2);
  }

  lemma OrOctets(hi: nat, lo: nat)
    requires lo < 8
    ensures Or(8 * hi, lo) == 8 * hi + lo
  {
    OrHalf(4 * hi, lo);
    OrQuads(hi, lo / 2);
  }

  lemma OrQuads(hi: nat, lo: nat)
    requires lo < 4
    ensures Or(4 * hi, lo) == 4 * hi + lo
  {
    OrHalf(2 * hi, lo);
    OrHalf(hi, lo / 2);
    OrZero(hi);
  }

  lemma OrHalf(h: nat, lo: nat)
    ensures Or(2 * h, lo) == 2 * Or(h, lo / 2) + lo % 2
  {
    assert (2 * h) / 2 == h && (2 * h) % 2 == 0;
    if h == 0 && lo == 0 { assert Or(0, 0) == 0; }
  }

  lemma {:induction false} OrZero(a: nat)
    ensures Or(a, 0) == a
  {
    if a > 0 { OrZero(a / 2); }
  }
}
