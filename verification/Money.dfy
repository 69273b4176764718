/** Money text: the FMT_BTOM and FMT_CTOM input formats (v_misc.c, formatIn). */
module Money {
  import opened Memory
  import opened Digits

  const POINT: byte := 0x2E

  /** The characters with the point put before the last two. */
  function Pointed(d: Text): (t: Text)
    requires |d| >= 2
    ensures |t| == |d| + 1 && t[|d| - 2] == POINT
  {
    d[..|d| - 2] + [POINT] + d[|d| - 2..]
  }

  /** The text both formats produce from the characters of an amount in cents. */
  function MoneyText(d: Text): Text
    requires |d| >= 2
  {
    StripLeadingZeros(Pointed(d))
  }

  lemma {:induction false} StripZerosKeepsTail(s: Text, tail: Text)
    requires tail != [] && tail[0] != 0x30
    ensures StripLeadingZeros(s + tail) == StripLeadingZeros(s) + tail
  {
    if s == [] {
      assert s + tail == tail;
    } else if s[0] == 0x30 {
      assert (s + tail)[1..] == s[1..] + tail;
      StripZerosKeepsTail(s[1..], tail);
    }
  }

  lemma {:induction false} StripZerosValue(s: Text)
    requires AllDigits(s)
    ensures AllDigits(StripLeadingZeros(s)) && Value(StripLeadingZeros(s)) == Value(s)
  {
    if s != [] && s[0] == 0x30 {
      StripZerosValue(s[1..]);
      ValueLeadingZero(s[1..]);
      assert s == [0x30] + s[1..];
    }
  }

  lemma ValueSplit(a: Text, b: Text)
    requires AllDigits(a) && AllDigits(b) && |b| == 2
    ensures AllDigits(a + b) && Value(a + b) == 100 * Value(a) + Value(b)
  {
    var s := a + b;
    var t := s[..|s| - 1];
    assert t[..|t| - 1] == a;
    assert Value(b[..1]) == b[0] - 0x30 by { assert b[..1][..0] == []; }
  }

  /**
   * The text is units, point, cents: the units carry no leading zero, the cents always two digits, and
   * the amount it denotes is the number of cents that went in.
   */
  lemma MoneyMeaning(d: Text) returns (units: Text, cents: Text)
    requires |d| >= 2 && AllDigits(d)
    ensures MoneyText(d) == units + [POINT] + cents
    ensures AllDigits(units) && AllDigits(cents) && |cents| == 2
    ensures units != [] ==> units[0] != 0x30
    ensures 100 * Value(units) + Value(cents) == Value(d)
  {
    hide MoneyText, Value, StripLeadingZeros;
    var a := d[..|d| - 2];
    cents := d[|d| - 2..];
    units := StripLeadingZeros(a);
    MoneyParts(a, cents);
    StripZerosValue(a);
    ValueSplit(a, cents);
    assert d == a + cents;
  }

  /** The units lose their leading zeros and nothing else happens to the text. */
  lemma MoneyParts(a: Text, cents: Text)
    requires AllDigits(a) && |cents| == 2
    ensures MoneyText(a + cents) == StripLeadingZeros(a) + [POINT] + cents
  {
    hide StripLeadingZeros;
    StripZerosKeepsTail(a, [POINT] + cents);
    assert (a + cents)[..|a|] == a && (a + cents)[|a|..] == cents;
    assert a + ([POINT] + cents) == a + [POINT] + cents;
    assert StripLeadingZeros(a) + ([POINT] + cents) == StripLeadingZeros(a) + [POINT] + cents;
  }

  /** The last two characters move right in place and the point goes between. */
  method PutPoint(p: array<byte>, len: nat)
    requires 2 <= len && len + 2 <= p.Length
    modifies p
    ensures p[..len + 1] == Pointed(old(p[..len])) && p[len + 1] == 0
  {
    p[len] := p[len - 1];
    p[len - 1] := p[len - 2];
    p[len - 2] := POINT;
    p[len + 1] := 0;
  }

  lemma StripStep(text: Text, q: nat)
    requires q < |text|
    ensures StripLeadingZeros(text[q..]) == if text[q] == 0x30 then StripLeadingZeros(text[q + 1..]) else text[q..]
  {
    assert text[q..][1..] == text[q + 1..];
  }

  /** Moves the text from its first character that is not a zero to the front; returns its length. */
  method StripInPlace(p: array<byte>, len: nat) returns (n: nat)
    requires len < p.Length && p[len] == 0
    requires exists i :: 0 <= i < len && p[i] == POINT
    modifies p
    ensures n <= len && p[..n] == StripLeadingZeros(old(p[..len])) && p[n] == 0
  {
    hide Overwrite, StripLeadingZeros;
    ghost var text := p[..len];
    ghost var stop :| 0 <= stop < len && text[stop] == POINT;
    var q := 0;
    while p[q] == 0x30
      modifies {}
      invariant 0 <= q <= stop
      invariant StripLeadingZeros(text) == StripLeadingZeros(text[q..])
      decreases len - q
    {
      StripStep(text, q);
      q := q + 1;
    }
    var xbuf := p[q..len];
    assert xbuf == text[q..];
    StripStep(text, q);
    n := |xbuf|;
    Copy(p, 0, xbuf + [0]);
    Front(p[..], xbuf);
  }

  lemma Front(cells: seq<byte>, s: Text)
    requires |s| < |cells| && cells[0..0 + |s + [0]|] == s + [0]
    ensures cells[..|s|] == s && cells[|s|] == 0
  {
    assert cells[|s|] == (s + [0])[|s|];
    forall i | 0 <= i < |s| ensures cells[i] == s[i] { assert cells[i] == (s + [0])[i]; }
  }

  /** The edit both input formats make on p[..len], in place. Returns the length of the text. */
  method InsertPoint(p: array<byte>, len: nat) returns (n: nat)
    requires 2 <= len && len + 2 <= p.Length
    modifies p
    ensures n < p.Length && p[..n] == MoneyText(old(p[..len])) && p[n] == 0
  {
    PutPoint(p, len);
    assert p[..len + 1][len - 2] == POINT;
    n := StripInPlace(p, len + 1);
  }
}
