/** The switch's own message record (cardco.h, struct internalmsg) and its small helpers. */
module Message {
  import opened Memory
  import opened Bitmaps

  /** What the formatter saves in formatter_use[] for the reply (extern.h, struct private_data). */
  datatype PrivateData = PrivateData(
    netId: seq<byte>,          // two bytes of the field 63 map
    bitmap: Bitmap,            // the map of the request
    destination: seq<byte>,
    source: seq<byte>,
    roundTrip: byte,
    batch: byte,
    reserved: seq<byte>,
    userInfo: byte,
    textFormat: byte,
    haveLargeBin: bool,
    largeBin: Text,
    length62: byte,
    bitmp621: byte,
    validationCode: Text)

  /** The members of struct internalmsg that the modelled code reads or writes. */
  datatype InternalMsg = InternalMsg(
    msgtype: int,
    pan: Text,
    pcode: int,
    txntype: int,
    fromAcct: int,
    amount: Text,
    avalBalance: Text,
    ledgerBalance: Text,
    cashBack: Text,
    issCurrency: int,
    issConvDate: int,
    acqCurrency: int,
    amountEquiv: Text,
    fee: Text,
    settlementCode: int,
    settlementAmount: Text,
    trandate: int,
    trantime: int,
    trace: int,
    localTime: int,
    localDate: int,
    settlementDate: int,
    posEntry: int,
    posCondition: int,
    posPinCap: byte,
    posCap: int,
    posGeo: Text,
    lifeCycle: int,
    acquirer: Text,
    originator: Text,
    respcode: int,
    revcode: int,
    merchantType: int,
    acqCountry: int,
    cardSeqno: int,
    serial1: int,
    serial2: int,
    track2: Text,
    refnum: Text,
    authnum: Text,
    termid: Text,
    acceptorname: Text,
    termloc: Text,
    addresponse: Text,
    pin: Text,
    formatCode: byte,
    pinAlgo: seq<byte>,
    pinIndex: byte,
    netcode: int,
    mac: Text,
    storeid: int,
    lane: int,
    dthUpd: Text,
    filler1Type: Text,         // filler1[0..5]: the type it came in with
    filler1Map: Bitmap,        // filler1[5..13]: the map it came in with
    priv: PrivateData)

  /** memset(&cardcomsg, 0, sizeof(cardcomsg)) */
  const BLANK: InternalMsg := InternalMsg(
    0, [], 0, 0, 0, [], [], [], [], 0, 0, 0, [], [], 0, [], 0, 0, 0, 0, 0, 0, 0, 0, 0, 0, [], 0, [], [], 0, 0,
    0, 0, 0, 0, 0, [], [], [], [], [], [], [], [], 0, [], 0, 0, [], 0, 0, [], [], Zeros(8),
    PrivateData([0, 0], Zeros(16), [0, 0, 0], [0, 0, 0], 0, 0, [0, 0, 0], 0, 0, false, [], 0, 0, []))

  // ---- the type tests of cardco.h ---------------------------------------------------------------

  predicate Is03xx(msgtype: int) { msgtype >= 0 && msgtype / 100 % 10 == 3 }
  predicate IsReversal(msgtype: int) { msgtype >= 0 && msgtype / 100 == 4 }
  predicate IsResponse(msgtype: int) { msgtype >= 0 && msgtype / 10 % 10 % 2 == 1 }

  /** C's %, which truncates toward zero. */
  function Rem(a: int, b: int): int
    requires b > 0
  {
    if a >= 0 then a % b else -((-a) % b)
  }

  /** A C string: the characters before the first NUL. */
  function CStr(s: seq<byte>): (r: Text)
    ensures r <= s && (forall i :: 0 <= i < |r| ==> r[i] != 0)
    ensures |r| < |s| ==> s[|r|] == 0
  {
    if s == [] || s[0] == 0 then [] else [s[0]] + CStr(s[1..])
  }

  /** The character at position i of an array that holds s and then NULs. */
  function CharAt(s: Text, i: nat): byte { if i < |s| then s[i] else 0 }

  lemma {:induction false} CStrWhole(s: seq<byte>)
    requires forall i :: 0 <= i < |s| ==> s[i] != 0
    ensures CStr(s) == s
  {
    if s != [] { CStrWhole(s[1..]); }
  }
}
