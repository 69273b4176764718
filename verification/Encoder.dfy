/**
 * cardcoToExtern (v_tonet.c) on the output buffer: formatOut and the loop over the fields, proved against the
 * bytes of Wire.Written and Codec.Encoded.
 */
module Encoder {
  import opened Memory
  import opened Digits
  import opened Conversions
  import opened Ebcdic
  import opened Zoned
  import opened Bitmaps
  import opened Message
  import opened Shapes
  import opened Layout
  import opened Wire
  import opened Codec

  /** extern_outbound clears the buffer: there is nothing from the cursor on. */
  ghost predicate Blank(mem: seq<byte>, at: nat)
  {
    at <= |mem| && forall k :: at <= k < |mem| ==> mem[k] == 0
  }

  lemma TwoWrites(mem: seq<byte>, at: nat, a: seq<byte>, b: seq<byte>)
    requires at + |a| + |b| <= |mem|
    ensures Overwrite(Overwrite(mem, at, a), at + |a|, b) == Overwrite(mem, at, a + b)
  {}

  lemma BlankAfter(mem: seq<byte>, at: nat, s: seq<byte>)
    requires Blank(mem, at) && at + |s| <= |mem|
    ensures Blank(Overwrite(mem, at, s), at + |s|)
  {}

  lemma ZerosAhead(mem: seq<byte>, at: nat, n: nat)
    requires Blank(mem, at) && at + n <= |mem|
    ensures Overwrite(mem, at, Zeros(n)) == mem
  {}

  lemma NothingWritten(mem: seq<byte>, at: nat)
    requires at <= |mem|
    ensures Overwrite(mem, at, []) == mem
  {}

  lemma OneWritten(mem: seq<byte>, at: nat, x: byte)
    requires at < |mem|
    ensures mem[at := x] == Overwrite(mem, at, [x])
  {}

  /** FMT_CHAR, then atoe over what it wrote. */
  method PutText(buf: array<byte>, at: nat, s: Text, n: nat)
    requires at + n <= buf.Length
    modifies buf
    ensures buf[..] == Overwrite(old(buf[..]), at, AtoeText(Fixed(s, n)))
  {
    hide Overwrite, AtoeText, Fixed;
    Copy(buf, at, Fixed(s, n));
    assert buf[at..at + n] == Fixed(s, n);
    Atoe(buf, at, n);
    Overwritten(old(buf[..]), at, Fixed(s, n), AtoeText(Fixed(s, n)));
  }

  lemma Overwritten(mem: seq<byte>, at: nat, a: seq<byte>, b: seq<byte>)
    requires |a| == |b| && at + |a| <= |mem|
    ensures Overwrite(Overwrite(mem, at, a), at, b) == Overwrite(mem, at, b)
  {}

  /** A length byte, then FMT_CHAR and atoe. */
  method PutVarText(buf: array<byte>, at: nat, s: Text) returns (n: nat)
    requires at + 1 + |s| <= buf.Length
    modifies buf
    ensures buf[..] == Overwrite(old(buf[..]), at, [|s| % 256] + AtoeText(s)) && n == 1 + |s|
  {
    OneWritten(buf[..], at, |s| % 256);
    buf[at] := |s| % 256;
    PutText(buf, at + 1, s, |s|);
    TwoWrites(old(buf[..]), at, [|s| % 256], AtoeText(s));
    n := 1 + |s|;
  }

  /** A length byte, then FMT_BTOC. */
  method PutVarBcd(buf: array<byte>, at: nat, s: Text) returns (n: nat)
    requires at + 1 + (|s| + 1) / 2 <= buf.Length
    modifies buf
    ensures buf[..] == Overwrite(old(buf[..]), at, [|s| % 256] + Pack(s)) && n == 1 + (|s| + 1) / 2
  {
    OneWritten(buf[..], at, |s| % 256);
    buf[at] := |s| % 256;
    n := Chartobcd(s, buf, at + 1);
    TwoWrites(old(buf[..]), at, [|s| % 256], Pack(s));
    n := 1 + n;
  }

  /** FMT_BTOM: low nibbles of a C string from the left, into cells that were zero. */
  method PutMoney(buf: array<byte>, at: nat, s: Text) returns (n: nat)
    requires at + 6 <= buf.Length && Blank(buf[..], at) && |s| <= 12
    modifies buf
    ensures buf[..] == Overwrite(old(buf[..]), at, LeftPack(s, 6)) && n == 6
  {
    hide Or;
    var cont := 0;
    while cont < |s|
      invariant 0 <= cont <= |s|
      invariant forall i :: 0 <= i < cont / 2 ==> buf[at + i] == LeftPack(s, 6)[i]
      invariant cont % 2 == 1 ==> buf[at + cont / 2] == 16 * LeftNibble(s, cont - 1)
      invariant forall k :: 0 <= k < buf.Length && !(at <= k < at + (cont + 1) / 2) ==> buf[k] == old(buf[k])
    {
      var ind, posIn := cont / 2, cont % 2;
      if posIn == 0 {
        buf[at + ind] := 16 * (s[cont] % 16);
      } else {
        OrNibbles(LeftNibble(s, cont - 1), s[cont] % 16);
        buf[at + ind] := Or(buf[at + ind], s[cont] % 16);
        LeftPackPair(s, ind);
      }
      cont := cont + 1;
    }
    MoneyTail(old(buf[..]), buf[..], at, s);
    n := 6;
  }

  lemma MoneyTail(before: seq<byte>, after: seq<byte>, at: nat, s: Text)
    requires at + 6 <= |before| == |after| && Blank(before, at) && |s| <= 12
    requires forall i :: 0 <= i < |s| / 2 ==> after[at + i] == LeftPack(s, 6)[i]
    requires |s| % 2 == 1 ==> after[at + |s| / 2] == 16 * LeftNibble(s, |s| - 1)
    requires forall k :: 0 <= k < |before| && !(at <= k < at + (|s| + 1) / 2) ==> after[k] == before[k]
    ensures after == Overwrite(before, at, LeftPack(s, 6))
  {
    forall i | 0 <= i < 6 ensures after[at + i] == LeftPack(s, 6)[i] {
      if 2 * i >= |s| {
        assert LeftNibble(s, 2 * i) == 0 && LeftNibble(s, 2 * i + 1) == 0;
      } else if 2 * i + 1 == |s| {
        assert i == |s| / 2 && LeftNibble(s, 2 * i + 1) == 0;
      }
    }
    OverwriteIs(before, after, at, LeftPack(s, 6));
  }

  /** FMT_BINARY; toBinary may stop early, and leaves zeros behind it. */
  method PutHex(buf: array<byte>, at: nat, s: Text)
    requires at + 8 <= buf.Length && Blank(buf[..], at) && |s| == 16
    modifies buf
    ensures buf[..] == Overwrite(old(buf[..]), at, Fixed(ToBinary(s), 8))
  {
    ToBinaryScan(buf, at, s);
    ghost var w := ToBinary(s);
    BlankAfter(old(buf[..]), at, w);
    ZerosAhead(buf[..], at + |w|, 8 - |w|);
    TwoWrites(old(buf[..]), at, w, Zeros(8 - |w|));
  }

  /** Two FMT_BTOI in a row. */
  method PutPair(buf: array<byte>, at: nat, v: int, n1: nat, w: int, n2: nat) returns (n: nat)
    requires n1 <= 32 && n2 <= 32 && at + (n1 + 1) / 2 + (n2 + 1) / 2 <= buf.Length
    modifies buf
    ensures n == (n1 + 1) / 2 + (n2 + 1) / 2
    ensures buf[..] == Overwrite(old(buf[..]), at, NumBytes(v, n1) + NumBytes(w, n2))
  {
    n := Itob(buf, at, v, n1);
    var k := Itob(buf, at + n, w, n2);
    TwoWrites(old(buf[..]), at, NumBytes(v, n1), NumBytes(w, n2));
    n := n + k;
  }

  /** The longest value a shape is given room for. */
  predicate InArray(sh: Shape, c: FieldValue)
  {
    match sh
    case Number(len) => len <= 32
    case Amount => |c.text| <= 12
    case _ => true
  }

  /** formatOut for a carried field. */
  method PutShape(buf: array<byte>, at: nat, sh: Shape, c: FieldValue) returns (n: nat)
    requires Blank(buf[..], at) && at + |Put(sh, c)| <= buf.Length && InArray(sh, c)
    modifies buf
    ensures buf[..] == Overwrite(old(buf[..]), at, Put(sh, c)) && n == |Put(sh, c)|
  {
    match sh {
      case Number(len) => n := Itob(buf, at, c.num, len);
      case Stamp => n := PutPair(buf, at, c.num, 4, c.aux, 6);
      case Amount => n := PutMoney(buf, at, c.text);
      case VarBcd(_) => n := PutVarBcd(buf, at, c.text);
      case Text8(len) => PutText(buf, at, c.text, len); n := len;
      case VarText(_) => n := PutVarText(buf, at, c.text);
      case Raw => OneWritten(buf[..], at, c.num % 256); buf[at] := c.num % 256; n := 1;
      case Hex => PutHex(buf, at, Fixed(c.text, 16)); n := 8;
      case Tagged =>
        OneWritten(buf[..], at, 2);
        buf[at] := 2;
        n := Itob(buf, at + 1, c.num, 2);
        TwoWrites(old(buf[..]), at, [2], NumBytes(c.num, 2));
        n := 1 + n;
    }
  }

  // ---- the pointers that step over characters ---------------------------------------------------

  /** while(*p && *p == '0') ++p; */
  method SkipZeros(s: Text) returns (t: Text)
    ensures t == StripLeadingZeros(s)
  {
    var p := 0;
    while p < |s| && s[p] == 0x30
      invariant 0 <= p <= |s| && StripLeadingZeros(s) == StripLeadingZeros(s[p..])
    {
      assert s[p..][1..] == s[p + 1..];
      p := p + 1;
    }
    t := s[p..];
  }

  lemma {:induction false} SpacesThere(s: Text, k: nat)
    requires k < LeadingSpaces(s)
    ensures IsSpace(s[k])
  {
    if k > 0 { SpacesThere(s[1..], k - 1); }
  }

  lemma {:induction false} SpacesEnd(s: Text, p: nat)
    requires p <= |s| && (forall k :: 0 <= k < p ==> IsSpace(s[k])) && (p < |s| ==> !IsSpace(s[p]))
    ensures LeadingSpaces(s) == p
  {
    if p > 0 { SpacesEnd(s[1..], p - 1); }
  }

  lemma {:induction false} DigitsEnd(s: Text, n: nat)
    requires n <= |s| && AllDigits(s[..n]) && (n < |s| ==> !IsDigit(s[n]))
    ensures DigitPrefix(s) == s[..n]
  {
    if n > 0 {
      assert s[..n][0] == s[0];
      assert s[1..][..n - 1] == s[..n][1..];
      DigitsEnd(s[1..], n - 1);
    }
  }

  /** for(; isspace(*p); ++p) *p = '0'; */
  method ZeroSpaces(refnum: array<byte>) returns (p: nat)
    requires refnum.Length >= 1 && refnum[refnum.Length - 1] == 0
    modifies refnum
    ensures p == LeadingSpaces(CStr(old(refnum[..])))
    ensures forall k :: 0 <= k < p ==> refnum[k] == 0x30
    ensures forall k :: p <= k < refnum.Length ==> refnum[k] == old(refnum[k])
  {
    ghost var s := CStr(refnum[..]);
    StopsAtNul(refnum[..]);
    p := 0;
    while IsSpace(refnum[p])
      invariant 0 <= p <= |s| < refnum.Length && s == CStr(old(refnum[..]))
      invariant forall k :: 0 <= k < p ==> IsSpace(s[k]) && refnum[k] == 0x30
      invariant forall k :: p <= k < refnum.Length ==> refnum[k] == old(refnum[k])
      decreases |s| - p
    {
      refnum[p] := 0x30;
      p := p + 1;
    }
    SpacesEnd(s, p);
  }

  /** for(; isdigit(*p); ++p); from position k. */
  method FirstOther(refnum: array<byte>, k: nat, ghost s: Text) returns (p: nat)
    requires k <= |s| < refnum.Length && s[k..] == refnum[k..|s|] && refnum[|s|] == 0
    ensures k <= p <= |s| && refnum[k..p] == DigitPrefix(s[k..])
  {
    p := k;
    while IsDigit(refnum[p])
      invariant k <= p <= |s|
      invariant AllDigits(refnum[k..p])
      decreases |s| - p
    {
      p := p + 1;
    }
    assert refnum[k..p] == s[k..][..p - k];
    if p < |s| { assert s[k..][p - k] == refnum[p]; }
    DigitsEnd(s[k..], p - k);
  }

  /** The edit of refnum in place: leading spaces become zeros, the first other character ends it. */
  method EditRefnum(refnum: array<byte>) returns (kept: Text)
    requires refnum.Length >= 1 && refnum[refnum.Length - 1] == 0
    modifies refnum
    ensures kept == RefnumKept(CStr(old(refnum[..])))
    ensures kept == CStr(refnum[..])
  {
    hide CStr, LeadingSpaces, DigitPrefix;
    ghost var s := CStr(refnum[..]);
    StopsAtNul(refnum[..]);
    var k := ZeroSpaces(refnum);
    assert s[k..] == refnum[k..|s|];
    var p := FirstOther(refnum, k, s);
    kept := refnum[..p];
    KeptCells(s, refnum[..], k, p);
    refnum[p] := 0;
    assert refnum[..p] == kept;
    CStrPrefix(refnum[..], p);
  }

  lemma KeptCells(s: Text, cells: seq<byte>, k: nat, p: nat)
    requires k == LeadingSpaces(s) <= p <= |cells| && cells[k..p] == DigitPrefix(s[k..])
    requires forall i :: 0 <= i < k ==> cells[i] == 0x30
    ensures cells[..p] == RefnumKept(s) && AllDigits(cells[..p])
  {
    hide LeadingSpaces, DigitPrefix;
    assert cells[..k] == seq(k, _ => 0x30);
    assert cells[..p] == cells[..k] + cells[k..p];
  }

  lemma {:induction false} StopsAtNul(s: seq<byte>)
    requires |s| > 0 && s[|s| - 1] == 0
    ensures |CStr(s)| < |s|
  {
    if s[0] != 0 { StopsAtNul(s[1..]); }
  }

  lemma {:induction false} CStrPrefix(s: seq<byte>, n: nat)
    requires n < |s| && s[n] == 0 && forall i :: 0 <= i < n ==> s[i] != 0
    ensures CStr(s) == s[..n]
  {
    if n > 0 {
      CStrPrefix(s[1..], n - 1);
      assert s[..n] == [s[0]] + s[1..][..n - 1];
    }
  }

  // ---- the fields that carry no value -----------------------------------------------------------

  /** What the encoder has written so far: `w` at `at`, over the buffer `mem`. */
  ghost predicate Wrote(buf: array<byte>, mem: seq<byte>, at: nat, w: seq<byte>)
    reads buf
  {
    Blank(mem, at) && at + |w| <= |mem| && buf[..] == Overwrite(mem, at, w)
  }

  /** FMT_CHAR and atoe, after what was written. */
  method AddText(buf: array<byte>, ghost mem: seq<byte>, at: nat, ghost w: seq<byte>, n: nat, s: Text, len: nat)
    returns (n1: nat)
    requires Wrote(buf, mem, at, w) && n == |w| && at + n + len <= buf.Length
    modifies buf
    ensures Wrote(buf, mem, at, w + AtoeText(Fixed(s, len))) && n1 == n + len
  {
    PutText(buf, at + n, s, len);
    TwoWrites(mem, at, w, AtoeText(Fixed(s, len)));
    n1 := n + len;
  }

  lemma CopiedThenCodedAt(mem: seq<byte>, p: nat, s: Text, t: seq<byte>, k: nat)
    requires Blank(mem, p) && p + 12 <= |mem| && |s| <= 12 == |t| && k < |mem|
    ensures p <= k < p + 12 ==> Overwrite(mem, p, s)[k] == Fixed(s, 12)[k - p]
    ensures Overwrite(Overwrite(mem, p, s), p, t)[k] == Overwrite(mem, p, t)[k]
  {}

  /** A string copied into blank cells, then twelve cells converted. */
  lemma CopiedThenCoded(mem: seq<byte>, p: nat, s: Text)
    requires Blank(mem, p) && p + 12 <= |mem| && |s| <= 12
    ensures Overwrite(mem, p, s)[p..p + 12] == Fixed(s, 12)
    ensures Overwrite(Overwrite(mem, p, s), p, AtoeText(Fixed(s, 12))) == Overwrite(mem, p, AtoeText(Fixed(s, 12)))
  {
    hide AtoeText, Overwrite, Blank, Fixed;
    forall k | 0 <= k < |mem|
      ensures p <= k < p + 12 ==> Overwrite(mem, p, s)[k] == Fixed(s, 12)[k - p]
      ensures Overwrite(Overwrite(mem, p, s), p, AtoeText(Fixed(s, 12)))[k]
              == Overwrite(mem, p, AtoeText(Fixed(s, 12)))[k]
    {
      CopiedThenCodedAt(mem, p, s, AtoeText(Fixed(s, 12)), k);
    }
  }

  /** FMT_CTOM copies the string alone; atoe then goes over all twelve cells. */
  method AddMoney(buf: array<byte>, ghost mem: seq<byte>, at: nat, ghost w: seq<byte>, n: nat, s: Text)
    returns (n1: nat)
    requires Wrote(buf, mem, at, w) && n == |w| && at + n + 12 <= buf.Length && |s| <= 12
    modifies buf
    ensures Wrote(buf, mem, at, w + AtoeText(Fixed(s, 12))) && n1 == n + 12
  {
    hide Overwrite, Blank, AtoeText, Fixed;
    BlankAfter(mem, at, w);
    CopiedThenCoded(buf[..], at + n, s);
    Copy(buf, at + n, s);
    assert buf[at + n..at + n + 12] == buf[..][at + n..at + n + 12];
    Atoe(buf, at + n, 12);
    TwoWrites(mem, at, w, AtoeText(Fixed(s, 12)));
    n1 := n + 12;
  }

  method AddNumber(buf: array<byte>, ghost mem: seq<byte>, at: nat, ghost w: seq<byte>, n: nat, v: int, len: nat)
    returns (n1: nat)
    requires Wrote(buf, mem, at, w) && n == |w| && len <= 32 && at + n + (len + 1) / 2 <= buf.Length
    modifies buf
    ensures Wrote(buf, mem, at, w + NumBytes(v, len)) && n1 == n + (len + 1) / 2
  {
    var k := Itob(buf, at + n, v, len);
    TwoWrites(mem, at, w, NumBytes(v, len));
    n1 := n + k;
  }

  method AddBytes(buf: array<byte>, ghost mem: seq<byte>, at: nat, ghost w: seq<byte>, n: nat, s: seq<byte>)
    returns (n1: nat)
    requires Wrote(buf, mem, at, w) && n == |w| && at + n + |s| <= buf.Length
    modifies buf
    ensures Wrote(buf, mem, at, w + s) && n1 == n + |s|
  {
    Copy(buf, at + n, s);
    TwoWrites(mem, at, w, s);
    n1 := n + |s|;
  }

  /** bp += k over cells that are zero. */
  lemma StepOver(buf: array<byte>, mem: seq<byte>, at: nat, w: seq<byte>, k: nat)
    requires Wrote(buf, mem, at, w) && at + |w| + k <= buf.Length
    ensures Wrote(buf, mem, at, w + Zeros(k))
  {
    BlankAfter(mem, at, w);
    ZerosAhead(buf[..], at + |w|, k);
    TwoWrites(mem, at, w, Zeros(k));
  }

  lemma Started(buf: array<byte>, at: nat)
    requires Blank(buf[..], at)
    ensures Wrote(buf, buf[..], at, [])
  {
    NothingWritten(buf[..], at);
  }

  /** The three amounts of field 48. */
  method AddAmounts(buf: array<byte>, ghost mem: seq<byte>, at: nat, ghost w: seq<byte>, n: nat, m: InternalMsg)
    returns (n1: nat)
    requires Wrote(buf, mem, at, w) && n == |w| && at + n + |PrivateAmounts(m)| <= buf.Length
    requires |m.avalBalance| <= 12 && |m.ledgerBalance| <= 12 && |m.settlementAmount| <= 12
    modifies buf
    ensures Wrote(buf, mem, at, w + PrivateAmounts(m)) && n1 == n + |PrivateAmounts(m)|
  {
    n1 := n;
    if CharAt(m.acceptorname, 4) != 0x44 {
      n1 := AddMoney(buf, mem, at, w, n1, m.avalBalance);
    }
    ghost var a := When(CharAt(m.acceptorname, 4) != 0x44, AtoeText(Fixed(m.avalBalance, 12)));
    assert Wrote(buf, mem, at, w + a) by { assert w + [] == w; }
    n1 := AddMoney(buf, mem, at, w + a, n1, m.ledgerBalance);
    ghost var b := AtoeText(Fixed(m.ledgerBalance, 12));
    Assoc(w, a, b);
    if CharAt(m.acceptorname, 4) == 0x43 {
      n1 := AddMoney(buf, mem, at, w + (a + b), n1, m.settlementAmount);
      Assoc(w, a + b, AtoeText(Fixed(m.settlementAmount, 12)));
    } else {
      assert a + b + [] == a + b;
    }
  }

  /** The due date, the fee and the time of field 48. */
  method AddDates(buf: array<byte>, ghost mem: seq<byte>, at: nat, ghost w: seq<byte>, n: nat, m: InternalMsg)
    returns (n1: nat)
    requires Wrote(buf, mem, at, w) && n == |w| && at + n + 24 <= buf.Length
    modifies buf
    ensures Wrote(buf, mem, at, w + PrivateDates(m)) && n1 == n + 24
  {
    ghost var a, b := AtoeText(Padded(m.settlementDate, 6)), AtoeText(Fixed(m.fee, 6));
    n1 := AddText(buf, mem, at, w, n, Padded(m.settlementDate, 6), 6);
    n1 := AddText(buf, mem, at, w + a, n1, m.fee, 6);
    Assoc(w, a, b);
    n1 := AddText(buf, mem, at, w + (a + b), n1, m.dthUpd, 12);
    Assoc(w, a + b, AtoeText(Fixed(m.dthUpd, 12)));
  }

  /** Field 48. */
  method PutPrivate(buf: array<byte>, at: nat, m: InternalMsg) returns (n: nat)
    requires Blank(buf[..], at) && at + 1 + |PrivateBody(m)| <= buf.Length
    requires |m.avalBalance| <= 12 && |m.ledgerBalance| <= 12 && |m.settlementAmount| <= 12
    modifies buf
    ensures buf[..] == Overwrite(old(buf[..]), at, [PrivateLength(m)] + PrivateBody(m))
    ensures n == 1 + |PrivateBody(m)|
  {
    ghost var mem := buf[..];
    Started(buf, at);
    var length := if CharAt(m.acceptorname, 4) == 0x43 then 60 else 36;
    n := AddBytes(buf, mem, at, [], 0, [length]);
    n := AddAmounts(buf, mem, at, [length], n, m);
    n := AddDates(buf, mem, at, [length] + PrivateAmounts(m), n, m);
    Assoc([length], PrivateAmounts(m), PrivateDates(m));
  }

  /** The indicated parts of field 62. */
  method AddPayment(buf: array<byte>, ghost mem: seq<byte>, at: nat, ghost w: seq<byte>, n: nat, m: InternalMsg)
    returns (n1: nat)
    requires Wrote(buf, mem, at, w) && n == |w| && at + n + |PaymentBody(m)| <= buf.Length
    modifies buf
    ensures Wrote(buf, mem, at, w + PaymentBody(m)) && n1 == n + |PaymentBody(m)|
  {
    n1 := n;
    ghost var a := When(Indicated(m.priv.bitmp621, 7), AtoeText(Fixed([m.posPinCap], 1)));
    if Indicated(m.priv.bitmp621, 7) {
      n1 := AddText(buf, mem, at, w, n1, [m.posPinCap], 1);
    }
    assert Wrote(buf, mem, at, w + a) by { assert w + [] == w; }
    ghost var b := When(Indicated(m.priv.bitmp621, 6), NumBytes(m.storeid, 7) + NumBytes(m.lane, 8));
    if Indicated(m.priv.bitmp621, 6) {
      n1 := AddNumber(buf, mem, at, w + a, n1, m.storeid, 7);
      n1 := AddNumber(buf, mem, at, w + a + NumBytes(m.storeid, 7), n1, m.lane, 8);
      Assoc(w + a, NumBytes(m.storeid, 7), NumBytes(m.lane, 8));
    }
    assert Wrote(buf, mem, at, w + a + b) by { assert w + a + [] == w + a; }
    Assoc(w, a, b);
    n1 := AddValidation(buf, mem, at, w + (a + b), n1, m);
    Assoc(w, a + b, When(Indicated(m.priv.bitmp621, 5), AtoeText(Fixed(m.priv.validationCode, 4))));
  }

  method AddValidation(buf: array<byte>, ghost mem: seq<byte>, at: nat, ghost w: seq<byte>, n: nat, m: InternalMsg)
    returns (n1: nat)
    requires Wrote(buf, mem, at, w) && n == |w|
    requires Indicated(m.priv.bitmp621, 5) ==> at + n + 4 <= buf.Length
    modifies buf
    ensures var c := When(Indicated(m.priv.bitmp621, 5), AtoeText(Fixed(m.priv.validationCode, 4)));
            Wrote(buf, mem, at, w + c) && n1 == n + |c|
  {
    n1 := n;
    if Indicated(m.priv.bitmp621, 5) {
      n1 := AddText(buf, mem, at, w, n, m.priv.validationCode, 4);
    } else {
      assert w + [] == w;
    }
  }

  /** Field 62. */
  method PutPayment(buf: array<byte>, at: nat, m: InternalMsg) returns (n: nat)
    requires Blank(buf[..], at) && at + 9 + |PaymentBody(m)| <= buf.Length
    modifies buf
    ensures buf[..] == Overwrite(old(buf[..]), at, [m.priv.length62] + Zeros(8) + PaymentBody(m))
    ensures n == 9 + |PaymentBody(m)|
  {
    ghost var mem := buf[..];
    Started(buf, at);
    n := AddBytes(buf, mem, at, [], 0, [m.priv.length62]);
    StepOver(buf, mem, at, [m.priv.length62], 8);
    n := AddPayment(buf, mem, at, [m.priv.length62] + Zeros(8), n + 8, m);
  }

  method AddNumberIf(buf: array<byte>, ghost mem: seq<byte>, at: nat, ghost w: seq<byte>, n: nat,
                     c: bool, v: int, len: nat) returns (n1: nat)
    requires Wrote(buf, mem, at, w) && n == |w| && len <= 32 && (c ==> at + n + (len + 1) / 2 <= buf.Length)
    modifies buf
    ensures Wrote(buf, mem, at, w + When(c, NumBytes(v, len))) && n1 == n + |When(c, NumBytes(v, len))|
  {
    n1 := n;
    if c {
      n1 := AddNumber(buf, mem, at, w, n, v, len);
    } else {
      assert w + [] == w;
    }
  }

  method StepOverIf(buf: array<byte>, ghost mem: seq<byte>, at: nat, ghost w: seq<byte>, n: nat, c: bool, k: nat)
    returns (n1: nat)
    requires Wrote(buf, mem, at, w) && n == |w| && (c ==> at + n + k <= buf.Length)
    ensures Wrote(buf, mem, at, w + When(c, Zeros(k))) && n1 == n + |When(c, Zeros(k))|
  {
    n1 := n;
    if c {
      StepOver(buf, mem, at, w, k);
      n1 := n + k;
    } else {
      assert w + [] == w;
    }
  }

  method AddCodes(buf: array<byte>, ghost mem: seq<byte>, at: nat, ghost w: seq<byte>, n: nat, k: NetMap,
                  m: InternalMsg)
    returns (n1: nat)
    requires Wrote(buf, mem, at, w) && n == |w| && at + n + |NetworkCodes(k, m)| <= buf.Length
    modifies buf
    ensures Wrote(buf, mem, at, w + NetworkCodes(k, m)) && n1 == n + |NetworkCodes(k, m)|
  {
    hide Wrote, NumBytes, Quot;
    ghost var a := When(k.b0, NumBytes(Quot(m.serial1, 10_000), 4));
    ghost var b := When(k.b1, NumBytes(Quot(m.lifeCycle, 3600), 4));
    ghost var c := When(k.b2, NumBytes(m.revcode, 4));
    ghost var d := When(k.b3, NumBytes(m.revcode, 4));
    n1 := AddNumberIf(buf, mem, at, w, n, k.b0, Quot(m.serial1, 10_000), 4);
    n1 := AddNumberIf(buf, mem, at, w + a, n1, k.b1, Quot(m.lifeCycle, 3600), 4);
    Assoc(w, a, b);
    n1 := AddNumberIf(buf, mem, at, w + (a + b), n1, k.b2, m.revcode, 4);
    Assoc(w, a + b, c);
    n1 := AddNumberIf(buf, mem, at, w + (a + b + c), n1, k.b3, m.revcode, 4);
    Assoc(w, a + b + c, d);
    n1 := AddNumberIf(buf, mem, at, w + (a + b + c + d), n1, k.b4, m.serial2, 6);
    Assoc(w, a + b + c + d, When(k.b4, NumBytes(m.serial2, 6)));
  }

  method AddSerial(buf: array<byte>, ghost mem: seq<byte>, at: nat, ghost w: seq<byte>, n: nat, c: bool, m: InternalMsg)
    returns (n1: nat)
    requires Wrote(buf, mem, at, w) && n == |w| && (c ==> at + n + 8 <= buf.Length)
    modifies buf
    ensures Wrote(buf, mem, at, w + When(c, [m.serial1 % 16] + Zeros(7)))
    ensures n1 == n + |When(c, [m.serial1 % 16] + Zeros(7))|
  {
    n1 := n;
    if c {
      n1 := AddBytes(buf, mem, at, w, n, [m.serial1 % 16]);
      StepOver(buf, mem, at, w + [m.serial1 % 16], 7);
      Assoc(w, [m.serial1 % 16], Zeros(7));
      n1 := n1 + 7;
    } else {
      assert w + [] == w;
    }
  }

  method AddGaps(buf: array<byte>, ghost mem: seq<byte>, at: nat, ghost w: seq<byte>, n: nat, k: NetMap, m: InternalMsg)
    returns (n1: nat)
    requires Wrote(buf, mem, at, w) && n == |w| && at + n + |NetworkGaps(k, m)| <= buf.Length
    modifies buf
    ensures Wrote(buf, mem, at, w + NetworkGaps(k, m)) && n1 == n + |NetworkGaps(k, m)|
  {
    hide Wrote, Zeros;
    ghost var a := When(k.b5, Zeros(7));
    ghost var b := When(k.b6, [m.serial1 % 16] + Zeros(7));
    ghost var c := When(k.b7, Zeros(4));
    n1 := StepOverIf(buf, mem, at, w, n, k.b5, 7);
    n1 := AddSerial(buf, mem, at, w + a, n1, k.b6, m);
    Assoc(w, a, b);
    n1 := StepOverIf(buf, mem, at, w + (a + b), n1, k.b7, 4);
    Assoc(w, a + b, c);
    n1 := StepOverIf(buf, mem, at, w + (a + b + c), n1, k.b8, 12);
    Assoc(w, a + b + c, When(k.b8, Zeros(12)));
  }

  method AddNetwork(buf: array<byte>, ghost mem: seq<byte>, at: nat, ghost w: seq<byte>, n: nat, k: NetMap,
                    m: InternalMsg)
    returns (n1: nat)
    requires Wrote(buf, mem, at, w) && n == |w| && at + n + |NetworkBody(k, m)| <= buf.Length
    modifies buf
    ensures Wrote(buf, mem, at, w + NetworkBody(k, m)) && n1 == n + |NetworkBody(k, m)|
  {
    n1 := AddCodes(buf, mem, at, w, n, k, m);
    n1 := AddGaps(buf, mem, at, w + NetworkCodes(k, m), n1, k, m);
    Assoc(w, NetworkCodes(k, m), NetworkGaps(k, m));
  }

  /** The map of field 63, one cell after its length byte. */
  method AddNetworkMap(buf: array<byte>, at: nat, net: seq<byte>)
    requires |net| == 8 && Blank(buf[..], at) && at + 4 <= buf.Length
    modifies buf
    ensures Wrote(buf, old(buf[..]), at, [0] + net[..3])
  {
    ghost var mem := buf[..];
    Started(buf, at);
    StepOver(buf, mem, at, [], 1);
    assert [] + Zeros(1) == [0];
    var n := AddBytes(buf, mem, at, [0], 1, net[..3]);
  }

  /** Field 63: the length byte is filled in last. */
  method PutNetwork(buf: array<byte>, at: nat, m: InternalMsg, net: seq<byte>) returns (n: nat)
    requires |net| == 8 && Blank(buf[..], at) && at + 4 + |NetworkBody(NetMapOf(net[0]), m)| <= buf.Length
    modifies buf
    ensures n == 4 + |NetworkBody(NetMapOf(net[0]), m)|
    ensures buf[..] == Overwrite(old(buf[..]), at, [n % 256] + net[..3] + NetworkBody(NetMapOf(net[0]), m))
  {
    ghost var mem, body := buf[..], NetworkBody(NetMapOf(net[0]), m);
    AddNetworkMap(buf, at, net);
    n := AddNetwork(buf, mem, at, [0] + net[..3], 4, NetMapOf(net[0]), m);
    FirstCell(mem, at, net[..3] + body, n % 256);
    Assoc([0], net[..3], body);
    Assoc([n % 256], net[..3], body);
    buf[at] := n % 256;
  }

  lemma FirstCell(mem: seq<byte>, at: nat, w: seq<byte>, x: byte)
    requires at + 1 + |w| <= |mem|
    ensures Overwrite(mem, at, [0] + w)[at := x] == Overwrite(mem, at, [x] + w)
  {}

  // ---- the loop over the fields -----------------------------------------------------------------

  /** The strings of the record end within their arrays, and a sent response code has two digits. */
  predicate InArrays(f: nat, m: InternalMsg)
  {
    match f
    case 4 => |m.amount| <= 12
    case 5 => |m.settlementAmount| <= 12
    case 6 => |m.amountEquiv| <= 12
    case 39 => 0 <= m.respcode <= 99
    case 48 => |m.avalBalance| <= 12 && |m.ledgerBalance| <= 12 && |m.settlementAmount| <= 12
    case 61 => |m.cashBack| <= 12
    case _ => true
  }

  /** The fields without a carried value. */
  method PutPassive(f: nat, m: InternalMsg, buf: array<byte>, at: nat, net: seq<byte>) returns (n: nat)
    requires 1 <= f <= 64 && f != 44 && !Carried(f) && |net| == 8 && InArrays(f, m)
    requires Blank(buf[..], at) && at + |Written(f, m, net)| <= buf.Length
    modifies buf
    ensures buf[..] == Overwrite(old(buf[..]), at, Written(f, m, net)) && n == |Written(f, m, net)|
  {
    hide Overwrite, LeftPack, NetworkBody, PaymentBody, PrivateBody, AtoeText, Padded, NetMapOf;
    match f {
      case 5 => n := PutMoney(buf, at, m.settlementAmount);
      case 6 => n := PutMoney(buf, at, m.amountEquiv);
      case 39 => PutText(buf, at, Padded(m.respcode, 2), 2); n := 2;
      case 48 => n := PutPrivate(buf, at, m);
      case 53 => n := PutSecurity(buf, at);
      case 61 => n := PutCashBack(buf, at, m);
      case 62 => n := PutPayment(buf, at, m);
      case 63 => NetworkBodyLength(NetMapOf(net[0]), m); n := PutNetwork(buf, at, m, net);
      case _ =>
        n := if f == 9 || f == 10 then 8 else if f == 20 || f == 21 then 2 else if f == 28 then 9 else 0;
        assert Written(f, m, net) == Zeros(n);
        ZerosAhead(buf[..], at, n);
    }
  }

  /** Field 53: four constants, then memset. */
  method PutSecurity(buf: array<byte>, at: nat) returns (n: nat)
    requires at + 8 <= buf.Length
    modifies buf
    ensures buf[..] == Overwrite(old(buf[..]), at, [0x20, 1, 1, 1] + Zeros(4)) && n == 8
  {
    Copy(buf, at, [0x20, 1, 1, 1] + Zeros(4));
    n := 8;
  }

  /** Field 61: a length byte of 12, then FMT_BTOM. */
  method PutCashBack(buf: array<byte>, at: nat, m: InternalMsg) returns (n: nat)
    requires Blank(buf[..], at) && at + 7 <= buf.Length && |m.cashBack| <= 12
    modifies buf
    ensures buf[..] == Overwrite(old(buf[..]), at, [12] + LeftPack(m.cashBack, 6)) && n == 7
  {
    OneWritten(buf[..], at, 12);
    BlankAfter(buf[..], at, [12]);
    buf[at] := 12;
    n := PutMoney(buf, at + 1, m.cashBack);
    TwoWrites(old(buf[..]), at, [12], LeftPack(m.cashBack, 6));
    n := n + 1;
  }

  /** Field 37: the reference number is edited in the record, then padded and sent. */
  method PutRefnum(buf: array<byte>, at: nat, refnum: array<byte>)
    requires buf != refnum && at + 12 <= buf.Length
    requires refnum.Length >= 1 && refnum[refnum.Length - 1] == 0
    modifies buf, refnum
    ensures buf[..] == Overwrite(old(buf[..]), at, AtoeText(RefnumText(CStr(old(refnum[..])))))
    ensures CStr(refnum[..]) == RefnumKept(CStr(old(refnum[..])))
  {
    var kept := EditRefnum(refnum);
    PutText(buf, at, RightOfTwelve(kept), 12);
  }

  /** itob of an int that is too long packs its leading digits. */
  lemma ShortBytes(v: nat, len: nat)
    requires v < 0x1_0000_0000 && len <= 8
    ensures NumBytes(v, len) == NumBytes(Leading(v, len), len)
  {
    hide ItoaText, Pack, Leading;
    LeadingText(v, len);
    Pow10AtMost8(len);
  }

  /** FMT_BTOS: the int that starts at the short. */
  method PutShort(f: nat, m: InternalMsg, buf: array<byte>, at: nat) returns (n: nat)
    requires IsShort(f) && at + |Put(ShapeOf(f), WireValue(f, m))| <= buf.Length
    modifies buf
    ensures buf[..] == Overwrite(old(buf[..]), at, Put(ShapeOf(f), WireValue(f, m)))
    ensures n == |Put(ShapeOf(f), WireValue(f, m))|
  {
    hide IntAt, Leading, NumBytes, Overwrite, Content;
    ghost var w := NumBytes(Leading(IntAt(f, m), ShortDigits(f)), ShortDigits(f));
    ShortBytes(IntAt(f, m), ShortDigits(f));
    if f == 60 {
      OneWritten(buf[..], at, 2);
      buf[at] := 2;
      n := Itob(buf, at + 1, IntAt(f, m), 2);
      TwoWrites(old(buf[..]), at, [2], w);
      n := 1 + n;
    } else {
      n := Itob(buf, at, IntAt(f, m), ShortDigits(f));
    }
  }

  /** The fields with a carried value. */
  method PutCarried(f: nat, m: InternalMsg, buf: array<byte>, at: nat, refnum: array<byte>) returns (n: nat)
    requires Carried(f) && f != 37 && InArrays(f, m) && buf != refnum
    requires Blank(buf[..], at) && at + |Put(ShapeOf(f), WireValue(f, m))| <= buf.Length
    modifies buf
    ensures buf[..] == Overwrite(old(buf[..]), at, Put(ShapeOf(f), WireValue(f, m)))
    ensures n == |Put(ShapeOf(f), WireValue(f, m))|
  {
    if f == 2 || f == 32 || f == 33 {
      var id := if f == 2 then m.pan else if f == 32 then InstId(m) else m.originator;
      var p := SkipZeros(id);
      n := PutVarBcd(buf, at, p);
    } else if IsShort(f) {
      n := PutShort(f, m, buf, at);
    } else {
      n := PutShape(buf, at, ShapeOf(f), WireValue(f, m));
    }
  }

  lemma RefnumWritten(m: InternalMsg, net: seq<byte>)
    requires |net| == 8
    ensures Written(37, m, net) == AtoeText(RefnumText(m.refnum))
  {}

  /** One turn of the switch. */
  method PutField(f: nat, m: InternalMsg, buf: array<byte>, at: nat, net: seq<byte>, refnum: array<byte>)
    returns (n: nat)
    requires 1 <= f <= 64 && f != 44 && |net| == 8 && InArrays(f, m) && buf != refnum
    requires Blank(buf[..], at) && at + |Written(f, m, net)| <= buf.Length
    requires f == 37 ==> refnum.Length >= 1 && refnum[refnum.Length - 1] == 0 && m.refnum == CStr(refnum[..])
    modifies buf, refnum
    ensures buf[..] == Overwrite(old(buf[..]), at, Written(f, m, net)) && n == |Written(f, m, net)|
    ensures f != 37 ==> refnum[..] == old(refnum[..])
    ensures f == 37 ==> CStr(refnum[..]) == RefnumKept(m.refnum)
  {
    hide Overwrite, RefnumKept, AtoeText, CStr, WireValue, Shapes.Put, Blank;
    if f == 37 {
      RefnumWritten(m, net);
      PutRefnum(buf, at, refnum);
      n := 12;
    } else if Carried(f) {
      n := PutCarried(f, m, buf, at, refnum);
    } else {
      n := PutPassive(f, m, buf, at, net);
    }
  }

  ghost predicate InArraysFor(bm: Bitmap, m: InternalMsg)
    requires |bm| == 8
  {
    forall f :: 1 <= f <= 64 && IsSet(bm, f) ==> InArrays(f, m)
  }

  /** The bytes of fields 1 up to f. */
  lemma {:induction false} EncodedUpTo(f: nat, bm: Bitmap, m: InternalMsg, net: seq<byte>, w: seq<byte>)
    requires 1 <= f <= 64 && |bm| == 8 && |net| == 8 && !IsSet(bm, 44)
    requires w + Encoded(f, bm, m, net) == Encoded(1, bm, m, net)
    ensures var w1 := if IsSet(bm, f) then w + Written(f, m, net) else w;
            w1 + Encoded(f + 1, bm, m, net) == Encoded(1, bm, m, net)
  {
    if IsSet(bm, f) { Assoc(w, Written(f, m, net), Encoded(f + 1, bm, m, net)); }
  }

  /** The map at `mapAt` in front of the message is not touched by what is written behind it. */
  lemma MapStands(buf: array<byte>, mem: seq<byte>, mapAt: nat, at: nat, w: seq<byte>, bit: nat)
    requires Wrote(buf, mem, at, w) && mapAt + 8 <= at && 1 <= bit <= 64
    ensures buf[mapAt..mapAt + 8] == mem[mapAt..mapAt + 8]
    ensures Bit(buf[mapAt + ByteOf(bit)], PositionOf(bit)) == IsSet(mem[mapAt..mapAt + 8], bit)
  {
    assert buf[mapAt + ByteOf(bit)] == buf[mapAt..mapAt + 8][ByteOf(bit)];
  }

  /** One field of the loop, when it is there. */
  method OneField(f: nat, m: InternalMsg, buf: array<byte>, ghost mem: seq<byte>, at: nat, ghost w: seq<byte>,
                  n: nat, net: seq<byte>, refnum: array<byte>) returns (n1: nat)
    requires 1 <= f <= 64 && f != 44 && |net| == 8 && InArrays(f, m) && buf != refnum
    requires Wrote(buf, mem, at, w) && n == |w| && at + n + |Written(f, m, net)| <= buf.Length
    requires f == 37 ==> refnum.Length >= 1 && refnum[refnum.Length - 1] == 0 && m.refnum == CStr(refnum[..])
    modifies buf, refnum
    ensures Wrote(buf, mem, at, w + Written(f, m, net)) && n1 == |w + Written(f, m, net)|
    ensures f != 37 ==> refnum[..] == old(refnum[..])
    ensures f == 37 ==> CStr(refnum[..]) == RefnumKept(m.refnum)
  {
    hide Written, Overwrite, Blank, RefnumKept, CStr, InArrays;
    BlankAfter(mem, at, w);
    var k := PutField(f, m, buf, at + n, net, refnum);
    TwoWrites(mem, at, w, Written(f, m, net));
    n1 := n + k;
  }

  lemma PastTheEnd(bm: Bitmap, m: InternalMsg, net: seq<byte>, w: seq<byte>)
    requires |bm| == 8 && |net| == 8 && !IsSet(bm, 44) && w + Encoded(65, bm, m, net) == Encoded(1, bm, m, net)
    ensures w == Encoded(1, bm, m, net)
  {
    assert w + [] == w;
  }

  /** One turn of the loop; `w` is what fields below f wrote. */
  method OneTurn(f: nat, m: InternalMsg, buf: array<byte>, ghost mem: seq<byte>, mapAt: nat, at: nat,
                 ghost w: seq<byte>, n: nat, net: seq<byte>, refnum: array<byte>)
    returns (n1: nat, ghost w1: seq<byte>)
    requires 1 <= f <= 64 && |net| == 8 && buf != refnum && mapAt + 8 <= at && mapAt + 16 <= buf.Length
    requires Wrote(buf, mem, at, w) && n == |w|
    requires var bm := mem[mapAt..mapAt + 8];
             && !IsSet(bm, 44) && InArraysFor(bm, m) && at + |Encoded(1, bm, m, net)| <= buf.Length
             && w + Encoded(f, bm, m, net) == Encoded(1, bm, m, net)
    requires f == 37 ==> refnum.Length >= 1 && refnum[refnum.Length - 1] == 0 && m.refnum == CStr(refnum[..])
    modifies buf, refnum
    ensures Wrote(buf, mem, at, w1) && n1 == |w1|
    ensures w1 + Encoded(f + 1, mem[mapAt..mapAt + 8], m, net) == Encoded(1, mem[mapAt..mapAt + 8], m, net)
    ensures f == 37 && IsSet(mem[mapAt..mapAt + 8], 37) ==> CStr(refnum[..]) == RefnumKept(m.refnum)
    ensures !(f == 37 && IsSet(mem[mapAt..mapAt + 8], 37)) ==> refnum[..] == old(refnum[..])
  {
    hide Written, Encoded, Bit, InArrays, RefnumKept, CStr;
    ghost var bm := mem[mapAt..mapAt + 8];
    MapStands(buf, mem, mapAt, at, w, f);
    EncodedUpTo(f, bm, m, net, w);
    var there := IsBitSet(buf, mapAt, f);
    n1, w1 := n, w;
    if there {
      w1 := w + Written(f, m, net);
      assert |w1| <= |w1 + Encoded(f + 1, bm, m, net)|;
      n1 := OneField(f, m, buf, mem, at, w, n, net, refnum);
    }
  }

  /**
   * The loop of cardcoToExtern over a primary map that lies in the buffer ahead of the message. Past field 64 it
   * goes on looking at the bits that follow, and leaves at the first one that is set.
   */
  method PutFields(m: InternalMsg, buf: array<byte>, mapAt: nat, at: nat, net: seq<byte>, refnum: array<byte>)
    returns (n: nat)
    requires buf != refnum && |net| == 8 && mapAt + 8 <= at && mapAt + 16 <= buf.Length && Blank(buf[..], at)
    requires !IsSet(buf[mapAt..mapAt + 8], 1) && !IsSet(buf[mapAt..mapAt + 8], 44)
    requires InArraysFor(buf[mapAt..mapAt + 8], m)
    requires at + |Encoded(1, buf[mapAt..mapAt + 8], m, net)| <= buf.Length
    requires refnum.Length >= 1 && refnum[refnum.Length - 1] == 0 && m.refnum == CStr(refnum[..])
    modifies buf, refnum
    ensures n == |Encoded(1, old(buf[mapAt..mapAt + 8]), m, net)|
    ensures buf[..] == Overwrite(old(buf[..]), at, Encoded(1, old(buf[mapAt..mapAt + 8]), m, net))
    ensures CStr(refnum[..]) == if IsSet(old(buf[mapAt..mapAt + 8]), 37) then RefnumKept(m.refnum) else m.refnum
  {
    hide Written, Encoded, Bit, InArrays, RefnumKept, CStr;
    ghost var mem, bm := buf[..], buf[mapAt..mapAt + 8];
    ghost var w: seq<byte> := [];
    Started(buf, at);
    assert w + Encoded(1, bm, m, net) == Encoded(1, bm, m, net);
    n := 0;
    var bitno := 1;
    while bitno <= 64
      invariant 1 <= bitno <= 65 && n == |w| && Wrote(buf, mem, at, w)
      invariant w + Encoded(bitno, bm, m, net) == Encoded(1, bm, m, net)
      invariant bitno <= 37 || !IsSet(bm, 37) ==> CStr(refnum[..]) == m.refnum
      invariant bitno <= 37 ==> refnum[..] == old(refnum[..])
      invariant bitno > 37 && IsSet(bm, 37) ==> CStr(refnum[..]) == RefnumKept(m.refnum)
    {
      n, w := OneTurn(bitno, m, buf, mem, mapAt, at, w, n, net, refnum);
      bitno := bitno + 1;
    }
    PastTheEnd(bm, m, net, w);
    ghost var kept := refnum[..];
    assert CStr(kept) == if IsSet(bm, 37) then RefnumKept(m.refnum) else m.refnum;
    while bitno <= 128
      modifies {}
      invariant 65 <= bitno <= 129 && refnum[..] == kept
    {
      var there := IsBitSet(buf, mapAt, bitno);
      if there { break; }
      bitno := bitno + 1;
    }
  }
}
