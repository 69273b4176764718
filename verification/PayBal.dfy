/** The payment and balance process (paybal.c), beside the authorizer. */
module PayBal {
  import opened Memory
  import opened Digits
  import opened Message
  import opened Authorizer

  const PAY_RECORD_LEN := 187

  // ---- the record (paybal.h) --------------------------------------------------------------------

  /** Type, processing code, reference number, origin, kind, merchant, terminal and category. */
  function PayOpening(m: InternalMsg, kind: byte): (r: Text)
    ensures |r| == 48
  {
    ItoaText(Unsigned(m.msgtype), 4) + ItoaText(Unsigned(m.pcode), 6) + Cells(m.refnum, 13, 0, 12) + [0x50, kind]
    + (ZeroChars(4) + Cells(m.termloc, 26, 7, 8) + Cells(m.termid, 9, 0, 8) + ItoaText(Unsigned(m.merchantType), 4))
  }

  function PayAmount(m: InternalMsg): (r: Text)
    ensures |r| == 16
  {
    CellsOrZeros(m.track2, 80, 1, 4) + Cells(m.amount, 13, 0, 12)
  }

  /** Payment date, bank, branch, account and cheque, out of the acceptor name. */
  function PayAccount(m: InternalMsg): (r: Text)
    ensures |r| == 32
  {
    CellsOrZeros(m.acceptorname, 41, 5, 8) + CellsOrZeros(m.acceptorname, 41, 13, 4)
    + CellsOrZeros(m.acceptorname, 41, 17, 4) + CellsOrZeros(m.acceptorname, 41, 21, 10)
    + CellsOrZeros(m.acceptorname, 41, 31, 6)
  }

  function PayRecord(m: InternalMsg): (r: Text)
    requires |m.pan| <= 19
    ensures |r| == PAY_RECORD_LEN
  {
    PayOpening(m, CharAt(m.acceptorname, 4)) + PaddedPan(m.pan) + PayAmount(m) + PayAccount(m) + ZeroChars(72)
  }

  /** The fields ahead of the PAN; the kind is filled in later. */
  method PutPayOpening(m: InternalMsg, area: array<byte>) returns (at: nat)
    requires area.Length >= 48
    modifies area
    ensures at == 48 && area[..48] == PayOpening(m, 0)
  {
    hide ItoaText, Cells, Unsigned, ZeroChars;
    ghost var done: Text := [];
    at := PutNumber(area, 0, m.msgtype, 4, done);
    done := done + ItoaText(Unsigned(m.msgtype), 4);
    at := PutNumber(area, at, m.pcode, 6, done);
    done := done + ItoaText(Unsigned(m.pcode), 6);
    at := Put(area, at, Cells(m.refnum, 13, 0, 12), done);
    done := done + Cells(m.refnum, 13, 0, 12);
    at := Put(area, at, [0x50, 0], done);
    done := done + [0x50, 0];
    ghost var t := ZeroChars(4);
    at := Put(area, at, ZeroChars(4), done);
    at := Put(area, at, Cells(m.termloc, 26, 7, 8), done + t);
    Assoc(done, t, Cells(m.termloc, 26, 7, 8));
    t := t + Cells(m.termloc, 26, 7, 8);
    at := Put(area, at, Cells(m.termid, 9, 0, 8), done + t);
    Assoc(done, t, Cells(m.termid, 9, 0, 8));
    t := t + Cells(m.termid, 9, 0, 8);
    at := PutNumber(area, at, m.merchantType, 4, done + t);
    Assoc(done, t, ItoaText(Unsigned(m.merchantType), 4));
    assert done + (t + ItoaText(Unsigned(m.merchantType), 4)) == PayOpening(m, 0);
  }

  method PutPayAmount(m: InternalMsg, area: array<byte>, at: nat, ghost done: seq<byte>) returns (at1: nat)
    requires at + 16 <= area.Length && at == |done| && area[..at] == done
    modifies area
    ensures at1 == at + 16 && area[..at1] == done + PayAmount(m)
  {
    hide Cells, CellsOrZeros;
    at1 := Put(area, at, CellsOrZeros(m.track2, 80, 1, 4), done);
    at1 := Put(area, at1, Cells(m.amount, 13, 0, 12), done + CellsOrZeros(m.track2, 80, 1, 4));
    Assoc(done, CellsOrZeros(m.track2, 80, 1, 4), Cells(m.amount, 13, 0, 12));
  }

  method PutPayAccount(m: InternalMsg, area: array<byte>, at: nat, ghost done: seq<byte>) returns (at1: nat)
    requires at + 32 <= area.Length && at == |done| && area[..at] == done
    modifies area
    ensures at1 == at + 32 && area[..at1] == done + PayAccount(m)
  {
    hide CellsOrZeros;
    ghost var t := CellsOrZeros(m.acceptorname, 41, 5, 8);
    at1 := Put(area, at, CellsOrZeros(m.acceptorname, 41, 5, 8), done);
    at1 := Put(area, at1, CellsOrZeros(m.acceptorname, 41, 13, 4), done + t);
    Assoc(done, t, CellsOrZeros(m.acceptorname, 41, 13, 4));
    t := t + CellsOrZeros(m.acceptorname, 41, 13, 4);
    at1 := Put(area, at1, CellsOrZeros(m.acceptorname, 41, 17, 4), done + t);
    Assoc(done, t, CellsOrZeros(m.acceptorname, 41, 17, 4));
    t := t + CellsOrZeros(m.acceptorname, 41, 17, 4);
    at1 := Put(area, at1, CellsOrZeros(m.acceptorname, 41, 21, 10), done + t);
    Assoc(done, t, CellsOrZeros(m.acceptorname, 41, 21, 10));
    t := t + CellsOrZeros(m.acceptorname, 41, 21, 10);
    at1 := Put(area, at1, CellsOrZeros(m.acceptorname, 41, 31, 6), done + t);
    Assoc(done, t, CellsOrZeros(m.acceptorname, 41, 31, 6));
  }

  lemma KindSet(m: InternalMsg, kind: byte, more: seq<byte>)
    ensures (PayOpening(m, 0) + more)[23 := kind] == PayOpening(m, kind) + more
  {
    hide ItoaText, Cells, Unsigned, ZeroChars;
    var a := ItoaText(Unsigned(m.msgtype), 4) + ItoaText(Unsigned(m.pcode), 6) + Cells(m.refnum, 13, 0, 12);
    assert |a| == 22;
  }

  /** prepareRequest: the finished record is the specified one, whatever the PAN spilled. */
  method PrepareRequest(m: InternalMsg, area: array<byte>)
    requires area.Length == PAY_RECORD_LEN && |m.pan| <= 19
    modifies area
    ensures area[..] == PayRecord(m)
  {
    hide PayOpening, PayAmount, PayAccount, PaddedPan, ZeroChars;
    ghost var kind, pan := CharAt(m.acceptorname, 4), PaddedPan(m.pan);
    var at := PutPayOpening(m, area);
    at := PutPan(m, area, at, PayOpening(m, 0));
    at := PutPayAmount(m, area, at, PayOpening(m, 0) + pan);
    Assoc(PayOpening(m, 0), pan, PayAmount(m));
    KindSet(m, kind, pan + PayAmount(m));
    ghost var before := area[..at];
    area[23] := CharAt(m.acceptorname, 4);
    assert area[..at] == before[23 := kind];
    Assoc(PayOpening(m, kind), pan, PayAmount(m));
    ghost var done := PayOpening(m, kind) + pan + PayAmount(m);
    at := PutPayAccount(m, area, at, done);
    at := Put(area, at, ZeroChars(72), done + PayAccount(m));
    assert area[..] == area[..at];
  }

  // ---- the record, cell by cell -----------------------------------------------------------------

  lemma PayOpeningCells(m: InternalMsg, kind: byte)
    ensures var o := PayOpening(m, kind);
            && o[..4] == ItoaText(Unsigned(m.msgtype), 4) && o[4..10] == ItoaText(Unsigned(m.pcode), 6)
            && (forall k :: 10 <= k < 22 ==> o[k] == CharAt(m.refnum, k - 10))
            && o[22] == 0x50 && o[23] == kind && (forall k :: 24 <= k < 28 ==> o[k] == 0x30)
            && (forall k :: 28 <= k < 36 ==> o[k] == CharAt(m.termloc, k - 21))
            && (forall k :: 36 <= k < 44 ==> o[k] == CharAt(m.termid, k - 36))
            && o[44..] == ItoaText(Unsigned(m.merchantType), 4)
  {
    hide ItoaText, Unsigned;
    var a, b, c := Cells(m.refnum, 13, 0, 12), Cells(m.termloc, 26, 7, 8), Cells(m.termid, 9, 0, 8);
    CellsAre(m.refnum, 13, 0, 12);
    CellsAre(m.termloc, 26, 7, 8);
    CellsAre(m.termid, 9, 0, 8);
    hide Cells;
    var o := PayOpening(m, kind);
    assert o[10..22] == a && o[28..36] == b && o[36..44] == c && o[24..28] == ZeroChars(4);
    forall k | 10 <= k < 22 ensures o[k] == CharAt(m.refnum, k - 10) { assert o[k] == a[k - 10]; }
    forall k | 24 <= k < 28 ensures o[k] == 0x30 { assert o[k] == o[24..28][k - 24]; }
    forall k | 28 <= k < 36 ensures o[k] == CharAt(m.termloc, k - 21) { assert o[k] == b[k - 28]; }
    forall k | 36 <= k < 44 ensures o[k] == CharAt(m.termid, k - 36) { assert o[k] == c[k - 36]; }
  }

  lemma PayParts(m: InternalMsg)
    requires |m.pan| <= 19
    ensures PayRecord(m)[..48] == PayOpening(m, CharAt(m.acceptorname, 4)) && PayRecord(m)[48..67] == PaddedPan(m.pan)
    ensures PayRecord(m)[67..83] == PayAmount(m) && PayRecord(m)[83..115] == PayAccount(m)
    ensures PayRecord(m)[115..] == ZeroChars(72)
  {
    hide PayOpening, PayAmount, PayAccount, PaddedPan, ZeroChars;
  }

  /** The numbers of the record: message type, processing code and merchant category. */
  lemma PayNumbers(m: InternalMsg)
    requires |m.pan| <= 19
    ensures var r := PayRecord(m);
            && AllDigits(r[..4]) && (0 <= m.msgtype <= 9999 ==> Value(r[..4]) == m.msgtype)
            && AllDigits(r[4..10]) && (0 <= m.pcode <= 999_999 ==> Value(r[4..10]) == m.pcode)
            && AllDigits(r[44..48]) && (0 <= m.merchantType <= 9999 ==> Value(r[44..48]) == m.merchantType)
  {
    hide PayRecord, PayOpening, ItoaText, Unsigned, Value;
    var o, r := PayOpening(m, CharAt(m.acceptorname, 4)), PayRecord(m);
    PayOpeningCells(m, CharAt(m.acceptorname, 4));
    PayParts(m);
    assert r[..4] == o[..4] && r[4..10] == r[..48][4..10] == o[4..10] && r[44..48] == r[..48][44..] == o[44..];
    Pow10Small();
    ItoaValue(Unsigned(m.msgtype), 4);
    ItoaValue(Unsigned(m.pcode), 6);
    ItoaValue(Unsigned(m.merchantType), 4);
  }

  /** The characters ahead of the PAN: reference number, origin, kind, merchant and terminal. */
  lemma PayHead(m: InternalMsg)
    requires |m.pan| <= 19
    ensures var r := PayRecord(m);
            && (forall k :: 10 <= k < 22 ==> r[k] == CharAt(m.refnum, k - 10))
            && r[22] == 0x50 && r[23] == CharAt(m.acceptorname, 4) && (forall k :: 24 <= k < 28 ==> r[k] == 0x30)
            && (forall k :: 28 <= k < 36 ==> r[k] == CharAt(m.termloc, k - 21))
            && (forall k :: 36 <= k < 44 ==> r[k] == CharAt(m.termid, k - 36))
  {
    hide PayRecord, PayOpening;
    var o, r := PayOpening(m, CharAt(m.acceptorname, 4)), PayRecord(m);
    PayOpeningCells(m, CharAt(m.acceptorname, 4));
    PayParts(m);
    forall k | 0 <= k < 48 ensures r[k] == o[k] { assert r[..48][k] == o[k]; }
  }

  /** The PAN with its zeros, expiry date and amount. */
  lemma PayMiddle(m: InternalMsg)
    requires |m.pan| <= 19
    ensures var r := PayRecord(m);
            && (forall k :: 48 <= k < 67 - |m.pan| ==> r[k] == 0x30)
            && (forall k :: 67 - |m.pan| <= k < 67 ==> r[k] == m.pan[k - (67 - |m.pan|)])
            && (forall k :: 67 <= k < 71 ==> r[k] == if CharAt(m.track2, 1) == 0 then 0x30
                                                     else CharAt(m.track2, k - 66))
            && (forall k :: 71 <= k < 83 ==> r[k] == CharAt(m.amount, k - 71))
  {
    hide PayRecord;
    var p, a, r := PaddedPan(m.pan), PayAmount(m), PayRecord(m);
    PayParts(m);
    CellsOrZerosAre(m.track2, 80, 1, 4);
    CellsAre(m.amount, 13, 0, 12);
    forall k | 48 <= k < 67 ensures r[k] == p[k - 48] { assert r[48..67][k - 48] == r[k]; }
    forall k | 67 <= k < 83 ensures r[k] == a[k - 67] { assert r[67..83][k - 67] == r[k]; }
  }

  /** Payment date, bank, branch, account and cheque out of the acceptor name, and zeros from 115 on. */
  lemma PayTail(m: InternalMsg)
    requires |m.pan| <= 19
    ensures var r, n := PayRecord(m), m.acceptorname;
            && (forall k :: 83 <= k < 91 ==> r[k] == if CharAt(n, 5) == 0 then 0x30 else CharAt(n, k - 78))
            && (forall k :: 91 <= k < 95 ==> r[k] == if CharAt(n, 13) == 0 then 0x30 else CharAt(n, k - 78))
            && (forall k :: 95 <= k < 99 ==> r[k] == if CharAt(n, 17) == 0 then 0x30 else CharAt(n, k - 78))
            && (forall k :: 99 <= k < 109 ==> r[k] == if CharAt(n, 21) == 0 then 0x30 else CharAt(n, k - 78))
            && (forall k :: 109 <= k < 115 ==> r[k] == if CharAt(n, 31) == 0 then 0x30 else CharAt(n, k - 78))
            && (forall k :: 115 <= k < 187 ==> r[k] == 0x30)
  {
    hide PayRecord;
    var n, a, r := m.acceptorname, PayAccount(m), PayRecord(m);
    PayParts(m);
    AccountCells(m);
    forall k | 83 <= k < 115 ensures r[k] == a[k - 83] { assert r[83..115][k - 83] == r[k]; }
    forall k | 115 <= k < 187 ensures r[k] == 0x30 { assert r[115..][k - 115] == r[k]; }
  }

  lemma AccountCells(m: InternalMsg)
    ensures var t, n := PayAccount(m), m.acceptorname;
            && (forall k :: 0 <= k < 8 ==> t[k] == if CharAt(n, 5) == 0 then 0x30 else CharAt(n, k + 5))
            && (forall k :: 8 <= k < 12 ==> t[k] == if CharAt(n, 13) == 0 then 0x30 else CharAt(n, k + 5))
            && (forall k :: 12 <= k < 16 ==> t[k] == if CharAt(n, 17) == 0 then 0x30 else CharAt(n, k + 5))
            && (forall k :: 16 <= k < 26 ==> t[k] == if CharAt(n, 21) == 0 then 0x30 else CharAt(n, k + 5))
            && (forall k :: 26 <= k < 32 ==> t[k] == if CharAt(n, 31) == 0 then 0x30 else CharAt(n, k + 5))
  {
    var n := m.acceptorname;
    var a, b, c := CellsOrZeros(n, 41, 5, 8), CellsOrZeros(n, 41, 13, 4), CellsOrZeros(n, 41, 17, 4);
    var d, e := CellsOrZeros(n, 41, 21, 10), CellsOrZeros(n, 41, 31, 6);
    CellsOrZerosAre(n, 41, 5, 8);
    CellsOrZerosAre(n, 41, 13, 4);
    CellsOrZerosAre(n, 41, 17, 4);
    CellsOrZerosAre(n, 41, 21, 10);
    CellsOrZerosAre(n, 41, 31, 6);
    hide CellsOrZeros;
    var t := PayAccount(m);
    forall k | 0 <= k < 8 ensures t[k] == a[k] {}
    forall k | 8 <= k < 12 ensures t[k] == b[k - 8] {}
    forall k | 12 <= k < 16 ensures t[k] == c[k - 12] {}
    forall k | 16 <= k < 26 ensures t[k] == d[k - 16] {}
    forall k | 26 <= k < 32 ensures t[k] == e[k - 26] {}
  }

  // ---- the route --------------------------------------------------------------------------------

  /** readIni returns one less than the entries it read. */
  function Served(bins: seq<Text>): (r: seq<Text>)
    ensures r <= bins
  {
    if bins == [] then [] else bins[..|bins| - 1]
  }

  /** The connection doIt uses; -1 is an unknown issuer, which is answered without asking. */
  function PayRoute(bins: seq<Text>, m: InternalMsg): int
  {
    if IsSale(m.msgtype) then RouteFrom(Served(bins), First6(m.pan), 0)
    else if !IsReversalRequest(m.msgtype) then 0
    else if StartsWith(m.termid, TERM_003) then 2
    else if StartsWith(m.termid, TERM_013) then 1
    else if StartsWith(m.termid, TERM_023) then 3
    else 0
  }

  /** The last issuer of the table is never served, unless it is listed before. */
  lemma LastIssuer(bins: seq<Text>, m: InternalMsg)
    requires bins != [] && IsSale(m.msgtype) && First6(First6(m.pan)) == First6(bins[|bins| - 1])
    ensures PayRoute(bins, m) == -1 <==> forall k :: 0 <= k < |bins| - 1 ==> First6(bins[k]) != First6(bins[|bins| - 1])
  {
    var s, r := Served(bins), PayRoute(bins, m);
    assert forall k :: 0 <= k < |s| ==> s[k] == bins[k];
    if r >= 0 { assert First6(bins[r]) == First6(bins[|bins| - 1]); }
  }

  /** A reversal goes by its terminal alone, and to connection 0 when that says nothing. */
  lemma PayRoutes(bins: seq<Text>, m: InternalMsg)
    ensures m.msgtype in {400, 401, 420} ==>
              PayRoute(bins, m) ==
                if |m.termid| < 3 then 0
                else if m.termid[..3] == [0x30, 0x30, 0x33] then 2
                else if m.termid[..3] == [0x30, 0x31, 0x33] then 1
                else if m.termid[..3] == [0x30, 0x32, 0x33] then 3
                else 0
    ensures m.msgtype !in {100, 101, 120, 200, 201, 220, 400, 401, 420} ==> PayRoute(bins, m) == 0
  {}

  /** A sale goes to the first issuer, ahead of the last of the table, that has the first six characters of the PAN. */
  lemma PaySaleRoute(bins: seq<Text>, m: InternalMsg)
    requires forall k :: 0 <= k < |bins| ==> 0 !in bins[k]
    requires 0 !in m.pan && m.msgtype in {100, 101, 120, 200, 201, 220}
    ensures var r := PayRoute(bins, m);
            && (r == -1 || (0 <= r < |bins| - 1 && SixAgree(bins[r], m.pan)))
            && forall i :: 0 <= i < |bins| - 1 && (r == -1 || i < r) ==> !SixAgree(bins[i], m.pan)
  {
    SixOfAll(bins, m.pan);
    var s := Served(bins);
    assert forall k :: 0 <= k < |s| ==> s[k] == bins[k];
  }

  // ---- the answer -------------------------------------------------------------------------------

  /** prepareResponse */
  function PayResponded(m: InternalMsg, resp: seq<byte>): InternalMsg
    requires |resp| == RESPONSE_LEN
  {
    m.(authnum := resp[121..127], respcode := Atoi(resp[115..117]), msgtype := m.msgtype + 10,
       avalBalance := CStr(resp[127..139]), ledgerBalance := CStr(resp[139..151]),
       settlementAmount := CStr(resp[151..163]), settlementDate := Atoi(resp[163..169]),
       fee := resp[169..175], dthUpd := resp[175..187])
  }

  /** The message PayBal hands to FORMOUTQ. */
  function PayReply(m: InternalMsg, bins: seq<Text>, answer: DbAnswer): InternalMsg
    requires Usable(answer)
  {
    if PayRoute(bins, m) >= 0 && answer.Answer? then PayResponded(m, answer.resp)
    else m.(msgtype := m.msgtype + 10, respcode := 96)
  }

  /** What is taken of the database's record, by its cells. */
  lemma PayAnswerCells(m: InternalMsg, bins: seq<Text>, resp: seq<byte>)
    requires Usable(Answer(resp)) && PayRoute(bins, m) >= 0
    ensures var r := PayReply(m, bins, Answer(resp));
            && r.msgtype == m.msgtype + 10 && r.respcode == Atoi(resp[115..117]) && r.authnum == resp[121..127]
            && r.avalBalance == CStr(resp[127..139]) && r.ledgerBalance == CStr(resp[139..151])
            && r.settlementAmount == CStr(resp[151..163]) && r.settlementDate == Atoi(resp[163..169])
            && r.fee == resp[169..175] && r.dthUpd == resp[175..187]
  {
    hide PayRoute;
  }

  /** Nothing was asked, or no answer came: 96. */
  lemma PayUnasked(m: InternalMsg, bins: seq<Text>, answer: DbAnswer)
    requires Usable(answer) && (PayRoute(bins, m) < 0 || answer == NoAnswer)
    ensures PayReply(m, bins, answer) == m.(msgtype := m.msgtype + 10, respcode := 96)
  {
    hide PayRoute;
  }

  /** A sale's issuer is among those that are served; the others are not asked for one. */
  predicate IsServed(m: InternalMsg, bins: seq<Text>)
  {
    IsSale(m.msgtype) ==> exists k :: 0 <= k < |bins| - 1 && First6(bins[k]) == First6(First6(m.pan))
  }

  lemma ServedRoute(m: InternalMsg, bins: seq<Text>)
    ensures PayRoute(bins, m) >= 0 <==> IsServed(m, bins)
  {
    var s := Served(bins);
    assert forall k :: 0 <= k < |s| ==> s[k] == bins[k];
    if IsSale(m.msgtype) && PayRoute(bins, m) >= 0 { assert s[PayRoute(bins, m)] == bins[PayRoute(bins, m)]; }
  }

  /**
   * Code zero needs an answer whose code parses to zero and, for a sale, an issuer in the table ahead of its last
   * entry; unlike in Auth, nothing is asked of the authorization code.
   */
  lemma PayApproved(m: InternalMsg, bins: seq<Text>, answer: DbAnswer)
    requires Usable(answer)
    ensures PayReply(m, bins, answer).respcode == 0
            <==> IsServed(m, bins) && answer.Answer? && Atoi(answer.resp[115..117]) == 0
  {
    hide PayRoute, IsServed, Atoi;
    ServedRoute(m, bins);
  }

  lemma PayKeeps(m: InternalMsg, bins: seq<Text>, answer: DbAnswer)
    requires Usable(answer)
    ensures var r := PayReply(m, bins, answer);
            && r.msgtype == m.msgtype + 10
            && r == m.(msgtype := r.msgtype, authnum := r.authnum, respcode := r.respcode, avalBalance := r.avalBalance,
                       ledgerBalance := r.ledgerBalance, settlementAmount := r.settlementAmount,
                       settlementDate := r.settlementDate, fee := r.fee, dthUpd := r.dthUpd)
            && (|r.avalBalance| <= 12 || r.avalBalance == m.avalBalance)
            && (|r.ledgerBalance| <= 12 || r.ledgerBalance == m.ledgerBalance)
            && (|r.settlementAmount| <= 12 || r.settlementAmount == m.settlementAmount)
  {}

  /** doIt on the record of the process. */
  method DoIt(m: InternalMsg, area: array<byte>, bins: seq<Text>, resp: seq<byte>, failed: bool)
    returns (reply: InternalMsg)
    requires area.Length == PAY_RECORD_LEN && |m.pan| <= 19 && Usable(Answer(resp))
    modifies area
    ensures area[..] == PayRecord(m)
    ensures reply == PayReply(m, bins, if failed then NoAnswer else Answer(resp))
  {
    PrepareRequest(m, area);
    var route := 0;
    if IsSale(m.msgtype) {
      route := GetRoute(Served(bins), First6(m.pan));
    } else if IsReversalRequest(m.msgtype) {
      if StartsWith(m.termid, TERM_003) {
        route := 2;
      } else if StartsWith(m.termid, TERM_013) {
        route := 1;
      } else if StartsWith(m.termid, TERM_023) {
        route := 3;
      }
    }
    if route >= 0 && !failed {
      reply := PayResponded(m, resp);
    } else {
      reply := m.(msgtype := m.msgtype + 10, respcode := 96);
    }
  }
}
