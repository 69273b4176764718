/** The authorizer (auth.c): the fixed record it asks the database with, the route, and the answer. */
module Authorizer {
  import opened Memory
  import opened Digits
  import opened Conversions
  import opened Message

  const RECORD_LEN := 174
  const RESPONSE_LEN := 512
  const ZERO: byte := 0x30

  function ZeroChars(n: nat): (r: Text)
    ensures |r| == n
  {
    seq(n, _ => ZERO)
  }

  // ---- the record (auth.h) ----------------------------------------------------------------------

  /** The PAN with zeros on the left, nineteen characters. */
  function PaddedPan(pan: Text): (r: Text)
    requires |pan| <= 19
    ensures |r| == 19
  {
    ZeroChars(19 - |pan|) + pan
  }

  /** The cells of a zero-filled array of `cap` characters that holds s. */
  function Cells(s: Text, cap: nat, from: nat, n: nat): (r: Text)
    requires from + n <= cap
    ensures |r| == n
  {
    Fixed(s, cap)[from..from + n]
  }

  /** n characters from position `from` on, or zeros when the string is empty there. */
  function CellsOrZeros(s: Text, cap: nat, from: nat, n: nat): (r: Text)
    requires from + n <= cap
    ensures |r| == n
  {
    if CharAt(s, from) == 0 then ZeroChars(n) else Cells(s, cap, from, n)
  }

  /** Type, processing code, reference number, origin, merchant, terminal and category. */
  function Opening(m: InternalMsg): (r: Text)
    ensures |r| == 47
  {
    ItoaText(Unsigned(m.msgtype), 4) + ItoaText(Unsigned(m.pcode), 6) + Cells(m.refnum, 13, 0, 12) + [0x50]
    + ZeroChars(4) + Cells(m.termloc, 26, 7, 8) + Cells(m.termid, 9, 0, 8) + ItoaText(Unsigned(m.merchantType), 4)
  }

  /** Expiry date, amount, down payment, PIN, kind and number of instalments, plan. */
  function Terms(m: InternalMsg): (r: Text)
    ensures |r| == 42
  {
    CellsOrZeros(m.track2, 80, 1, 4) + Cells(m.amount, 13, 0, 12) + ZeroChars(12) + CellsOrZeros(m.pin, 16, 0, 8)
    + [CharAt(m.acceptorname, 5)] + CellsOrZeros(m.acceptorname, 41, 6, 2) + CellsOrZeros(m.acceptorname, 41, 19, 3)
  }

  /** The record handed to the database: 66 characters are left for its answer. */
  function AuthRecord(m: InternalMsg): (r: Text)
    requires |m.pan| <= 19
    ensures |r| == RECORD_LEN
  {
    Opening(m) + PaddedPan(m.pan) + Terms(m) + ZeroChars(66)
  }

  /** What one memset or memcpy leaves, when the cells before `at` are already right. */
  method Put(area: array<byte>, at: nat, s: seq<byte>, ghost done: seq<byte>) returns (at1: nat)
    requires at + |s| <= area.Length && at == |done| && area[..at] == done
    modifies area
    ensures at1 == at + |s| && area[..at1] == done + s
    ensures forall k :: at1 <= k < area.Length ==> area[k] == old(area[k])
  {
    Copy(area, at, s);
    at1 := at + |s|;
    assert area[..at1] == area[..at] + area[at..at1];
  }

  method PutNumber(area: array<byte>, at: nat, v: int, n: nat, ghost done: seq<byte>) returns (at1: nat)
    requires at + n <= area.Length && n <= 500 && at == |done| && area[..at] == done
    modifies area
    ensures at1 == at + n && area[..at1] == done + ItoaText(Unsigned(v), n)
  {
    Itoa(Unsigned(v), area, at, n);
    at1 := at + n;
    assert area[..at1] == done + ItoaText(Unsigned(v), n);
  }

  /** The fields ahead of the PAN. */
  method PutOpening(m: InternalMsg, area: array<byte>) returns (at: nat)
    requires area.Length >= 47
    modifies area
    ensures at == 47 && area[..47] == Opening(m)
  {
    hide ItoaText, Cells, Unsigned, ZeroChars;
    ghost var done: Text := [];
    at := PutNumber(area, 0, m.msgtype, 4, done);
    done := ItoaText(Unsigned(m.msgtype), 4);
    assert [] + done == done;
    at := PutNumber(area, at, m.pcode, 6, done);
    done := done + ItoaText(Unsigned(m.pcode), 6);
    at := Put(area, at, Cells(m.refnum, 13, 0, 12), done);
    done := done + Cells(m.refnum, 13, 0, 12);
    at := Put(area, at, [0x50], done);
    at := Put(area, at, ZeroChars(4), done + [0x50]);
    done := done + [0x50] + ZeroChars(4);
    at := Put(area, at, Cells(m.termloc, 26, 7, 8), done);
    done := done + Cells(m.termloc, 26, 7, 8);
    at := Put(area, at, Cells(m.termid, 9, 0, 8), done);
    done := done + Cells(m.termid, 9, 0, 8);
    at := PutNumber(area, at, m.merchantType, 4, done);
    assert done + ItoaText(Unsigned(m.merchantType), 4) == Opening(m);
  }

  /**
   * The PAN: zeros, then always nineteen characters of the array, so that a short PAN runs over into the cells
   * behind. Those that follow the nineteen of the field are not what they should be yet.
   */
  method PutPan(m: InternalMsg, area: array<byte>, at: nat, ghost done: seq<byte>) returns (at1: nat)
    requires |m.pan| <= 19 && at + 38 <= area.Length && at == |done| && area[..at] == done
    modifies area
    ensures at1 == at + 19 && area[..at1] == done + PaddedPan(m.pan)
    ensures forall k :: at + 38 <= k < area.Length ==> area[k] == old(area[k])
  {
    var len := |m.pan|;
    var ptr := at;
    ghost var before := done;
    if len < 19 {
      ptr := Put(area, at, ZeroChars(19 - len), done);
      before := done + ZeroChars(19 - len);
    } else {
      assert done + ZeroChars(0) == done;
    }
    ghost var spilled := Put(area, ptr, Fixed(m.pan, 20)[..19], before);
    at1 := at + 19;
    assert area[..at1] == (before + Fixed(m.pan, 20)[..19])[..at1];
    assert Fixed(m.pan, 20)[..len] == m.pan;
    assert area[..at1] == before + m.pan;
    assert before + m.pan == done + PaddedPan(m.pan);
  }

  /** The fields behind the PAN; they cover what it spilled. */
  method PutTerms(m: InternalMsg, area: array<byte>, at: nat, ghost done: seq<byte>) returns (at1: nat)
    requires at + 42 <= area.Length && at == |done| && area[..at] == done
    modifies area
    ensures at1 == at + 42 && area[..at1] == done + Terms(m)
  {
    hide Cells, CellsOrZeros, ZeroChars;
    ghost var t: Text := CellsOrZeros(m.track2, 80, 1, 4);
    at1 := Put(area, at, CellsOrZeros(m.track2, 80, 1, 4), done);
    at1 := Put(area, at1, Cells(m.amount, 13, 0, 12), done + t);
    Assoc(done, t, Cells(m.amount, 13, 0, 12));
    t := t + Cells(m.amount, 13, 0, 12);
    at1 := Put(area, at1, ZeroChars(12), done + t);
    Assoc(done, t, ZeroChars(12));
    t := t + ZeroChars(12);
    at1 := Put(area, at1, CellsOrZeros(m.pin, 16, 0, 8), done + t);
    Assoc(done, t, CellsOrZeros(m.pin, 16, 0, 8));
    t := t + CellsOrZeros(m.pin, 16, 0, 8);
    at1 := Put(area, at1, [CharAt(m.acceptorname, 5)], done + t);
    Assoc(done, t, [CharAt(m.acceptorname, 5)]);
    t := t + [CharAt(m.acceptorname, 5)];
    at1 := Put(area, at1, CellsOrZeros(m.acceptorname, 41, 6, 2), done + t);
    Assoc(done, t, CellsOrZeros(m.acceptorname, 41, 6, 2));
    t := t + CellsOrZeros(m.acceptorname, 41, 6, 2);
    at1 := Put(area, at1, CellsOrZeros(m.acceptorname, 41, 19, 3), done + t);
    Assoc(done, t, CellsOrZeros(m.acceptorname, 41, 19, 3));
  }

  /** prepareAuthorization: whatever the PAN spilled, the finished record is the specified one. */
  method PrepareAuthorization(m: InternalMsg, area: array<byte>)
    requires area.Length == RECORD_LEN && |m.pan| <= 19
    modifies area
    ensures area[..] == AuthRecord(m)
  {
    hide Opening, Terms, PaddedPan, ZeroChars;
    var at := PutOpening(m, area);
    at := PutPan(m, area, at, Opening(m));
    at := PutTerms(m, area, at, Opening(m) + PaddedPan(m.pan));
    at := Put(area, at, ZeroChars(66), Opening(m) + PaddedPan(m.pan) + Terms(m));
    assert area[..] == area[..at];
  }

  /** The PAN of the record: zeros, then the digits; nothing of the record behind it depends on it. */
  lemma RecordPan(m: InternalMsg, m1: InternalMsg)
    requires |m.pan| <= 19 && |m1.pan| <= 19 && m1 == m.(pan := m1.pan)
    ensures AuthRecord(m)[47..66] == PaddedPan(m.pan)
    ensures AuthRecord(m)[..47] == AuthRecord(m1)[..47] && AuthRecord(m)[66..] == AuthRecord(m1)[66..]
  {
    hide PaddedPan, ZeroChars;
    assert Opening(m) == Opening(m1) && Terms(m) == Terms(m1);
    hide Opening, Terms;
    Parts(m);
    Parts(m1);
  }

  lemma Parts(m: InternalMsg)
    requires |m.pan| <= 19
    ensures AuthRecord(m)[..47] == Opening(m) && AuthRecord(m)[47..66] == PaddedPan(m.pan)
    ensures AuthRecord(m)[66..] == Terms(m) + ZeroChars(66)
  {
    hide Opening, Terms, PaddedPan, ZeroChars;
  }

  // ---- the record, cell by cell -----------------------------------------------------------------

  lemma OpeningCells(m: InternalMsg)
    ensures var o := Opening(m);
            && o[..4] == ItoaText(Unsigned(m.msgtype), 4) && o[4..10] == ItoaText(Unsigned(m.pcode), 6)
            && (forall k :: 10 <= k < 22 ==> o[k] == CharAt(m.refnum, k - 10))
            && o[22] == 0x50 && (forall k :: 23 <= k < 27 ==> o[k] == 0x30)
            && (forall k :: 27 <= k < 35 ==> o[k] == CharAt(m.termloc, k - 20))
            && (forall k :: 35 <= k < 43 ==> o[k] == CharAt(m.termid, k - 35))
            && o[43..] == ItoaText(Unsigned(m.merchantType), 4)
  {
    hide ItoaText, Unsigned;
    var a, b, c := Cells(m.refnum, 13, 0, 12), Cells(m.termloc, 26, 7, 8), Cells(m.termid, 9, 0, 8);
    CellsAre(m.refnum, 13, 0, 12);
    CellsAre(m.termloc, 26, 7, 8);
    CellsAre(m.termid, 9, 0, 8);
    hide Cells;
    var o := Opening(m);
    assert o[10..22] == a && o[27..35] == b && o[35..43] == c && o[23..27] == ZeroChars(4);
    forall k | 10 <= k < 22 ensures o[k] == CharAt(m.refnum, k - 10) { assert o[k] == a[k - 10]; }
    forall k | 23 <= k < 27 ensures o[k] == 0x30 { assert o[k] == o[23..27][k - 23]; }
    forall k | 27 <= k < 35 ensures o[k] == CharAt(m.termloc, k - 20) { assert o[k] == b[k - 27]; }
    forall k | 35 <= k < 43 ensures o[k] == CharAt(m.termid, k - 35) { assert o[k] == c[k - 35]; }
  }

  lemma CellsAre(s: Text, cap: nat, from: nat, n: nat)
    requires from + n <= cap
    ensures forall i :: 0 <= i < n ==> Cells(s, cap, from, n)[i] == CharAt(s, from + i)
  {}

  lemma CellsOrZerosAre(s: Text, cap: nat, from: nat, n: nat)
    requires from + n <= cap
    ensures forall i :: 0 <= i < n ==>
              CellsOrZeros(s, cap, from, n)[i] == if CharAt(s, from) == 0 then 0x30 else CharAt(s, from + i)
  {}

  lemma TermsHead(m: InternalMsg)
    ensures var t := Terms(m);
            && (forall k :: 0 <= k < 4 ==> t[k] == if CharAt(m.track2, 1) == 0 then 0x30 else CharAt(m.track2, k + 1))
            && (forall k :: 4 <= k < 16 ==> t[k] == CharAt(m.amount, k - 4))
            && (forall k :: 16 <= k < 28 ==> t[k] == 0x30)
  {
    var a, b := CellsOrZeros(m.track2, 80, 1, 4), Cells(m.amount, 13, 0, 12);
    CellsOrZerosAre(m.track2, 80, 1, 4);
    CellsAre(m.amount, 13, 0, 12);
    hide Cells, CellsOrZeros;
    var t := Terms(m);
    assert t[..4] == a && t[4..16] == b && t[16..28] == ZeroChars(12);
    forall k | 0 <= k < 4 ensures t[k] == a[k] {}
    forall k | 4 <= k < 16 ensures t[k] == b[k - 4] { assert t[4..16][k - 4] == t[k]; }
    forall k | 16 <= k < 28 ensures t[k] == 0x30 { assert t[16..28][k - 16] == t[k]; }
  }

  lemma TermsTail(m: InternalMsg)
    ensures var t := Terms(m);
            && (forall k :: 28 <= k < 36 ==> t[k] == if CharAt(m.pin, 0) == 0 then 0x30 else CharAt(m.pin, k - 28))
            && t[36] == CharAt(m.acceptorname, 5)
            && (forall k :: 37 <= k < 39 ==> t[k] == if CharAt(m.acceptorname, 6) == 0 then 0x30
                                                     else CharAt(m.acceptorname, k - 31))
            && (forall k :: 39 <= k < 42 ==> t[k] == if CharAt(m.acceptorname, 19) == 0 then 0x30
                                                     else CharAt(m.acceptorname, k - 20))
  {
    var c, d := CellsOrZeros(m.pin, 16, 0, 8), CellsOrZeros(m.acceptorname, 41, 6, 2);
    var e := CellsOrZeros(m.acceptorname, 41, 19, 3);
    CellsOrZerosAre(m.pin, 16, 0, 8);
    CellsOrZerosAre(m.acceptorname, 41, 6, 2);
    CellsOrZerosAre(m.acceptorname, 41, 19, 3);
    hide Cells, CellsOrZeros, ZeroChars;
    var t := Terms(m);
    assert t[28..36] == c && t[37..39] == d && t[39..42] == e;
    forall k | 28 <= k < 36 ensures t[k] == c[k - 28] { assert t[28..36][k - 28] == t[k]; }
    forall k | 37 <= k < 39 ensures t[k] == d[k - 37] { assert t[37..39][k - 37] == t[k]; }
    forall k | 39 <= k < 42 ensures t[k] == e[k - 39] { assert t[39..42][k - 39] == t[k]; }
  }

  /** The numbers of the record: message type, processing code and merchant category. */
  lemma RecordNumbers(m: InternalMsg)
    requires |m.pan| <= 19
    ensures var r := AuthRecord(m);
            && AllDigits(r[..4]) && (0 <= m.msgtype <= 9999 ==> Value(r[..4]) == m.msgtype)
            && AllDigits(r[4..10]) && (0 <= m.pcode <= 999_999 ==> Value(r[4..10]) == m.pcode)
            && AllDigits(r[43..47]) && (0 <= m.merchantType <= 9999 ==> Value(r[43..47]) == m.merchantType)
  {
    hide Opening, Terms, PaddedPan, ZeroChars, ItoaText, Unsigned, Value;
    OpeningCells(m);
    Parts(m);
    var r := AuthRecord(m);
    assert r[..4] == Opening(m)[..4] && r[4..10] == Opening(m)[4..10] && r[43..47] == Opening(m)[43..];
    Pow10Small();
    ItoaValue(Unsigned(m.msgtype), 4);
    ItoaValue(Unsigned(m.pcode), 6);
    ItoaValue(Unsigned(m.merchantType), 4);
  }

  /** The characters ahead of the PAN: reference number, origin, merchant and terminal. */
  lemma RecordHead(m: InternalMsg)
    requires |m.pan| <= 19
    ensures var r := AuthRecord(m);
            && (forall k :: 10 <= k < 22 ==> r[k] == CharAt(m.refnum, k - 10)) && r[22] == 0x50
            && (forall k :: 23 <= k < 27 ==> r[k] == 0x30)
            && (forall k :: 27 <= k < 35 ==> r[k] == CharAt(m.termloc, k - 20))
            && (forall k :: 35 <= k < 43 ==> r[k] == CharAt(m.termid, k - 35))
  {
    OpeningCells(m);
    hide Opening, Terms, PaddedPan, ZeroChars;
    Parts(m);
    var o, r := Opening(m), AuthRecord(m);
    forall k | 0 <= k < 47 ensures r[k] == o[k] { assert r[..47][k] == o[k]; }
  }

  /** The PAN: zeros, then its characters. */
  lemma RecordPanCells(m: InternalMsg)
    requires |m.pan| <= 19
    ensures var r := AuthRecord(m);
            && (forall k :: 47 <= k < 66 - |m.pan| ==> r[k] == 0x30)
            && (forall k :: 66 - |m.pan| <= k < 66 ==> r[k] == m.pan[k - (66 - |m.pan|)])
  {
    hide Opening, Terms;
    Parts(m);
    var r := AuthRecord(m);
    forall k | 47 <= k < 66 ensures r[k] == PaddedPan(m.pan)[k - 47] { assert r[47..66][k - 47] == r[k]; }
  }

  /** Those behind it: expiry, amount, down payment, PIN, instalments, plan, and zeros for the answer from 108 on. */
  lemma RecordTail(m: InternalMsg)
    requires |m.pan| <= 19
    ensures var r := AuthRecord(m);
            && (forall k :: 66 <= k < 70 ==> r[k] == if CharAt(m.track2, 1) == 0 then 0x30
                                                     else CharAt(m.track2, k - 65))
            && (forall k :: 70 <= k < 82 ==> r[k] == CharAt(m.amount, k - 70))
            && (forall k :: 82 <= k < 94 ==> r[k] == 0x30)
            && (forall k :: 94 <= k < 102 ==> r[k] == if CharAt(m.pin, 0) == 0 then 0x30 else CharAt(m.pin, k - 94))
            && r[102] == CharAt(m.acceptorname, 5)
            && (forall k :: 103 <= k < 105 ==> r[k] == if CharAt(m.acceptorname, 6) == 0 then 0x30
                                                       else CharAt(m.acceptorname, k - 97))
            && (forall k :: 105 <= k < 108 ==> r[k] == if CharAt(m.acceptorname, 19) == 0 then 0x30
                                                       else CharAt(m.acceptorname, k - 86))
            && (forall k :: 108 <= k < 174 ==> r[k] == 0x30)
  {
    TermsHead(m);
    TermsTail(m);
    hide Opening, Terms, PaddedPan;
    Parts(m);
    var t, r := Terms(m) + ZeroChars(66), AuthRecord(m);
    forall k | 66 <= k < 174 ensures r[k] == t[k - 66] { assert r[66..][k - 66] == r[k]; }
  }

  // ---- the route --------------------------------------------------------------------------------

  /** What strncpy and strncmp of six characters look at. */
  function First6(s: Text): Text { if |s| > 6 then s[..6] else s }

  /** The first connection of the issuer, or -1. */
  function RouteFrom(bins: seq<Text>, bin: Text, i: nat): (r: int)
    requires i <= |bins|
    ensures -1 <= r < |bins| && (r >= 0 ==> i <= r && First6(bins[r]) == First6(bin))
    ensures r == -1 ==> forall k :: i <= k < |bins| ==> First6(bins[k]) != First6(bin)
    ensures r >= 0 ==> forall k :: i <= k < r ==> First6(bins[k]) != First6(bin)
    decreases |bins| - i
  {
    if i == |bins| then -1 else if First6(bins[i]) == First6(bin) then i else RouteFrom(bins, bin, i + 1)
  }

  /** getRoute */
  method GetRoute(bins: seq<Text>, bin: Text) returns (route: int)
    ensures route == RouteFrom(bins, bin, 0)
  {
    route := -1;
    for i := 0 to |bins|
      invariant route == -1 && RouteFrom(bins, bin, 0) == RouteFrom(bins, bin, i)
    {
      if First6(bins[i]) == First6(bin) {
        return i;
      }
    }
  }

  predicate StartsWith(s: Text, p: Text) { |p| <= |s| && s[..|p|] == p }

  const TERM_003: Text := [0x30, 0x30, 0x33]
  const TERM_013: Text := [0x30, 0x31, 0x33]
  const TERM_023: Text := [0x30, 0x32, 0x33]

  predicate IsSale(msgtype: int) { msgtype in {100, 101, 120, 200, 201, 220} }
  predicate IsReversalRequest(msgtype: int) { msgtype in {400, 401, 420} }

  /** The connection authorize() uses; -1 is no connection, and what the code does then is not defined. */
  function AuthRoute(bins: seq<Text>, m: InternalMsg): int
  {
    var r := RouteFrom(bins, First6(m.pan), 0);
    if IsSale(m.msgtype) then r
    else if !IsReversalRequest(m.msgtype) then 0
    else if r != -1 then r
    else if StartsWith(m.termid, TERM_003) then 0
    else if StartsWith(m.termid, TERM_013) then 1
    else if StartsWith(m.termid, TERM_023) then 1
    else -1
  }

  /** Two strings agree in what is compared when their first six characters do. */
  lemma SixCompared(a: Text, b: Text)
    requires 0 !in a && 0 !in b
    ensures First6(a) == First6(b) <==> forall k :: 0 <= k < 6 ==> CharAt(a, k) == CharAt(b, k)
  {
    if forall k :: 0 <= k < 6 ==> CharAt(a, k) == CharAt(b, k) {
      assert |a| < 6 ==> CharAt(a, |a|) == CharAt(b, |a|);
      assert |b| < 6 ==> CharAt(a, |b|) == CharAt(b, |b|);
      assert forall k :: 0 <= k < |First6(a)| ==> First6(a)[k] == CharAt(a, k) == CharAt(b, k);
    } else {
      var k :| 0 <= k < 6 && CharAt(a, k) != CharAt(b, k);
      assert CharAt(a, k) == CharAt(First6(a), k) && CharAt(b, k) == CharAt(First6(b), k);
    }
  }

  /** A sale and a reversal go to the first issuer that has the first six characters of the PAN. */
  lemma AuthRoutes(bins: seq<Text>, m: InternalMsg)
    requires forall k :: 0 <= k < |bins| ==> 0 !in bins[k]
    requires 0 !in m.pan && m.msgtype in {100, 101, 120, 200, 201, 220, 400, 401, 420} && Listed(bins, m.pan)
    ensures var r := AuthRoute(bins, m);
            && 0 <= r < |bins| && SixAgree(bins[r], m.pan)
            && forall i :: 0 <= i < r ==> !SixAgree(bins[i], m.pan)
  {
    SixOfAll(bins, m.pan);
  }

  /**
   * When there is none, a sale has no connection, and a reversal goes by its terminal: 003 to connection 0, 013 and
   * 023 to connection 1.
   */
  lemma AuthUnlisted(bins: seq<Text>, m: InternalMsg)
    requires forall k :: 0 <= k < |bins| ==> 0 !in bins[k]
    requires 0 !in m.pan && !Listed(bins, m.pan)
    ensures m.msgtype in {100, 101, 120, 200, 201, 220} ==> AuthRoute(bins, m) == -1
    ensures m.msgtype in {400, 401, 420} ==>
              AuthRoute(bins, m) ==
                if |m.termid| < 3 then -1
                else if m.termid[..3] == [0x30, 0x30, 0x33] then 0
                else if m.termid[..3] in {[0x30, 0x31, 0x33], [0x30, 0x32, 0x33]} then 1
                else -1
  {
    SixOfAll(bins, m.pan);
    var r := RouteFrom(bins, First6(m.pan), 0);
    assert forall i :: 0 <= i < |bins| ==> !SixAgree(bins[i], m.pan);
    assert r == -1;
    hide RouteFrom, SixAgree;
    assert |m.termid| >= 3 ==> |m.termid[..3]| == 3;
  }

  /** What is neither goes to connection 0. */
  lemma AuthOthers(bins: seq<Text>, m: InternalMsg)
    requires m.msgtype !in {100, 101, 120, 200, 201, 220, 400, 401, 420}
    ensures AuthRoute(bins, m) == 0
  {}

  lemma SixOfAll(bins: seq<Text>, pan: Text)
    requires forall k :: 0 <= k < |bins| ==> 0 !in bins[k]
    requires 0 !in pan
    ensures First6(First6(pan)) == First6(pan)
    ensures forall i :: 0 <= i < |bins| ==> (First6(bins[i]) == First6(pan) <==> SixAgree(bins[i], pan))
  {
    forall i | 0 <= i < |bins| ensures First6(bins[i]) == First6(pan) <==> SixAgree(bins[i], pan) {
      SixCompared(bins[i], pan);
    }
  }

  /** The first six characters are the same. */
  predicate SixAgree(a: Text, b: Text) { forall k :: 0 <= k < 6 ==> CharAt(a, k) == CharAt(b, k) }

  predicate Listed(bins: seq<Text>, pan: Text) { exists i :: 0 <= i < |bins| && SixAgree(bins[i], pan) }

  // ---- the answer -------------------------------------------------------------------------------

  /** The stored function failed, or filled in its 512 characters. */
  datatype DbAnswer = NoAnswer | Answer(resp: seq<byte>)

  predicate Usable(answer: DbAnswer)
  {
    answer.Answer? ==> |answer.resp| == RESPONSE_LEN && answer.resp[RESPONSE_LEN - 1] == 0
  }

  /** The blanks at the end of s[..n] turned into NULs. */
  function Blanked(s: seq<byte>, n: nat): (r: seq<byte>)
    requires n <= |s|
    ensures |r| == |s|
    decreases n
  {
    if n > 0 && s[n - 1] == 0x20 then Blanked(s[n - 1 := 0], n - 1) else s
  }

  /** stripTraillingBlanks, in place. */
  method StripTrailingBlanks(str: array<byte>)
    requires str.Length > 0 && str[str.Length - 1] == 0
    modifies str
    ensures str[..] == Blanked(old(str[..]), |CStr(old(str[..]))|)
  {
    ghost var s := str[..];
    var count := |CStr(str[..])|;
    ghost var n := count;
    while count > 0 && str[count - 1] == 0x20
      invariant 0 <= count <= n <= str.Length && Blanked(str[..], count) == Blanked(s, n)
    {
      ghost var before := str[..];
      str[count - 1] := 0;
      assert str[..] == before[count - 1 := 0];
      count := count - 1;
    }
  }

  /** prepareResponse: zero response code without an authorization code becomes 91. */
  function Responded(m: InternalMsg, resp: seq<byte>): InternalMsg
    requires |resp| == RESPONSE_LEN
  {
    var a := if resp[102] != ZERO then CStr(resp[128..140]) else m.avalBalance;
    m.(authnum := resp[114..120],
       respcode := if Atoi(resp[114..120]) == 0 && Atoi(resp[108..110]) == 0 then 91 else Atoi(resp[108..110]),
       msgtype := m.msgtype + 10,
       avalBalance := if Atoi(resp[156..]) > 0 then CStr(resp[156..168]) else a)
  }

  /** The message Auth hands to FORMOUTQ. */
  function AuthReply(m: InternalMsg, answer: DbAnswer): InternalMsg
    requires Usable(answer)
  {
    match answer
    case NoAnswer => m.(msgtype := m.msgtype + 10, respcode := 96)
    case Answer(resp) => Responded(m, Blanked(resp, |CStr(resp)|))
  }

  /** The blanks from j on are what has gone, and no character ahead of them is touched. */
  lemma {:induction false} BlankedExact(s: seq<byte>, n: nat) returns (j: nat)
    requires n <= |s|
    ensures j <= n && (j > 0 ==> s[j - 1] != 0x20) && forall k :: j <= k < n ==> s[k] == 0x20
    ensures forall k :: 0 <= k < |s| ==> Blanked(s, n)[k] == if j <= k < n then 0 else s[k]
    decreases n
  {
    if n > 0 && s[n - 1] == 0x20 {
      var t := s[n - 1 := 0];
      j := BlankedExact(t, n - 1);
      assert forall k :: 0 <= k < n - 1 ==> t[k] == s[k];
      assert forall k :: j <= k < n - 1 ==> s[k] == t[k] == 0x20;
    } else {
      j := n;
    }
  }

  // ---- turning blanks into NULs does not change a number ----------------------------------------

  lemma {:induction false} SkipAppend(x: Text, w: Text)
    ensures SkipSpaces(x) != [] ==> SkipSpaces(x + w) == SkipSpaces(x) + w
    ensures SkipSpaces(x) == [] ==> SkipSpaces(x + w) == SkipSpaces(w)
  {
    if x == [] {
      assert x + w == w;
    } else if IsSpace(x[0]) {
      assert (x + w)[1..] == x[1..] + w;
      SkipAppend(x[1..], w);
    }
  }

  lemma SignedEnds(t: Text, w: Text)
    requires t != [] && (w == [] || !IsDigit(w[0]))
    ensures Signed(t + w) == Signed(t)
  {
    hide DigitPrefix, Value;
    PrefixAppend(t, w);
    PrefixAppend(t[1..], w);
    assert (t + w)[1..] == t[1..] + w;
  }

  lemma EmptyEnds(w: Text)
    requires w == [] || w[0] == 0 || (w[0] == 0x20 && (|w| == 1 || w[1] == 0))
    ensures Atoi(w) == 0
  {
    assert SkipSpaces(w) == w || (SkipSpaces(w) == SkipSpaces(w[1..]) == w[1..]);
  }

  /** A number ends at a blank or a NUL. */
  lemma AtoiEnds(x: Text, w: Text)
    requires w == [] || w[0] == 0 || (w[0] == 0x20 && (|w| == 1 || w[1] == 0))
    ensures Atoi(x + w) == Atoi(x)
  {
    SkipAppend(x, w);
    if SkipSpaces(x) == [] {
      EmptyEnds(w);
      assert Value([]) == 0;
    } else {
      hide SkipSpaces, DigitPrefix;
      SignedEnds(SkipSpaces(x), w);
    }
  }

  /** One blank at the end of the string in s becomes a NUL: no slice of s changes its value. */
  lemma OneBlanked(s: seq<byte>, p: nat, a: nat, b: nat)
    requires a <= b <= |s| && p < |s| && s[p] == 0x20 && (p + 1 < |s| ==> s[p + 1] == 0)
    ensures Atoi(s[p := 0][a..b]) == Atoi(s[a..b])
  {
    if a <= p < b {
      var x, y := s[a..p], s[p + 1..b];
      assert s[a..b] == x + ([0x20] + y) && s[p := 0][a..b] == x + ([0] + y);
      AtoiEnds(x, [0x20] + y);
      AtoiEnds(x, [0] + y);
    } else {
      assert s[p := 0][a..b] == s[a..b];
    }
  }

  lemma {:induction false} BlankedKeeps(s: seq<byte>, n: nat, a: nat, b: nat)
    requires n <= |s| && a <= b <= |s| && (n < |s| ==> s[n] == 0)
    ensures Atoi(Blanked(s, n)[a..b]) == Atoi(s[a..b])
    decreases n
  {
    if n > 0 && s[n - 1] == 0x20 {
      OneBlanked(s, n - 1, a, b);
      BlankedKeeps(s[n - 1 := 0], n - 1, a, b);
    }
  }

  // ---- approval ---------------------------------------------------------------------------------

  /** The code is zero exactly when the answer's is, with an authorization code other than zero. */
  lemma ApprovedReply(m: InternalMsg, answer: DbAnswer)
    requires Usable(answer)
    ensures AuthReply(m, answer).respcode == 0
            <==> answer.Answer? && Atoi(answer.resp[108..110]) == 0 && Atoi(answer.resp[114..120]) != 0
  {
    if answer.Answer? {
      var resp := answer.resp;
      BlankedKeeps(resp, |CStr(resp)|, 108, 110);
      BlankedKeeps(resp, |CStr(resp)|, 114, 120);
    }
  }

  /** The four members an answer sets, by the cells of the database's record. */
  lemma AnswerCells(m: InternalMsg, resp: seq<byte>)
    requires Usable(Answer(resp))
    ensures var r, b := AuthReply(m, Answer(resp)), Blanked(resp, |CStr(resp)|);
            && r.msgtype == m.msgtype + 10
            && r.respcode == (if Atoi(resp[108..110]) == 0 && Atoi(resp[114..120]) == 0 then 91
                              else Atoi(resp[108..110]))
            && r.authnum == b[114..120]
            && r.avalBalance == (if Atoi(resp[156..]) > 0 then CStr(b[156..168])
                                 else if b[102] != 0x30 then CStr(b[128..140])
                                 else m.avalBalance)
  {
    hide Atoi, CStr;
    var n := |CStr(resp)|;
    BlankedKeeps(resp, n, 108, 110);
    BlankedKeeps(resp, n, 114, 120);
    BlankedKeeps(resp, n, 156, |resp|);
    hide Blanked;
    var b := Blanked(resp, n);
    assert b[156..|resp|] == b[156..] && resp[156..|resp|] == resp[156..];
    assert AuthReply(m, Answer(resp)) == Responded(m, b);
  }

  /** No answer: 96. */
  lemma NoAnswerCells(m: InternalMsg)
    ensures AuthReply(m, NoAnswer) == m.(msgtype := m.msgtype + 10, respcode := 96)
  {}

  /** What no answer changes. */
  lemma ReplyKeeps(m: InternalMsg, answer: DbAnswer)
    requires Usable(answer)
    ensures var r := AuthReply(m, answer);
            && r.msgtype == m.msgtype + 10
            && r == m.(msgtype := r.msgtype, authnum := r.authnum, respcode := r.respcode, avalBalance := r.avalBalance)
            && |r.avalBalance| <= if |m.avalBalance| > 12 then |m.avalBalance| else 12
  {}

  /** prepareAuthorization and authorize on the record of the process, for a known connection. */
  method Authorize(m: InternalMsg, area: array<byte>, bins: seq<Text>, resp: array<byte>, failed: bool)
    returns (reply: InternalMsg, route: int)
    requires area.Length == RECORD_LEN && |m.pan| <= 19 && AuthRoute(bins, m) != -1
    requires resp.Length == RESPONSE_LEN && resp[RESPONSE_LEN - 1] == 0 && area != resp
    modifies area, resp
    ensures area[..] == AuthRecord(m) && route == AuthRoute(bins, m)
    ensures reply == AuthReply(m, if failed then NoAnswer else Answer(old(resp[..])))
  {
    PrepareAuthorization(m, area);
    assert resp[..] == old(resp[..]);
    route := 0;
    if IsSale(m.msgtype) {
      route := GetRoute(bins, First6(m.pan));
    } else if IsReversalRequest(m.msgtype) {
      route := GetRoute(bins, First6(m.pan));
      if route == -1 {
        route := if StartsWith(m.termid, TERM_003) then 0 else 1;
      }
    }
    if failed {
      reply := m.(msgtype := m.msgtype + 10, respcode := 96);
    } else {
      StripTrailingBlanks(resp);
      reply := Responded(m, resp[..]);
    }
  }
}
