/**
 * Which member of the message record each primary data element uses, on the way out (v_tonet.c) and on the
 * way in (v_tocardco.c), and how the cursor moves over the elements that carry no value.
 */
module Layout {
  import opened Memory
  import opened Digits
  import opened Ebcdic
  import opened Zoned
  import opened Money
  import opened Bitmaps
  import opened Message
  import opened Shapes

  /** What the decoder takes from outside: the two-digit year, and the value of its never-set local j. */
  datatype Env = Env(year: nat, junk: int)

  /** The fields whose value both loops move between the record and the wire. */
  predicate Carried(f: nat)
  {
    f in {2, 3, 4, 7, 11, 12, 13, 14, 15, 16, 18, 19, 22, 23, 25, 26, 32, 33, 35, 37, 38, 41, 42, 43, 45,
          49, 50, 51, 52, 59, 60, 64}
  }

  function ShapeOf(f: nat): Shape
    requires Carried(f)
  {
    match f
    case 2 => VarBcd(19)
    case 3 => Number(6)
    case 4 => Amount
    case 7 => Stamp
    case 11 => Number(6)
    case 12 => Number(6)
    case 13 => Number(4)
    case 14 => Number(4)
    case 15 => Number(4)
    case 16 => Number(4)
    case 18 => Number(4)
    case 19 => Number(4)
    case 22 => Number(4)
    case 23 => Number(4)
    case 25 => Number(2)
    case 26 => Raw
    case 32 => VarBcd(11)
    case 33 => VarBcd(10)
    case 35 => VarBcd(79)
    case 37 => Text8(12)
    case 38 => Text8(6)
    case 41 => Text8(8)
    case 42 => Text8(15)
    case 43 => Text8(40)
    case 45 => VarText(79)
    case 49 => Number(3)
    case 50 => Number(3)
    case 51 => Number(3)
    case 52 => Hex
    case 59 => VarText(14)
    case 60 => Tagged
    case 64 => Hex
  }

  /** The institution id of field 32: the long form when the decoder had to keep it apart. */
  function InstId(m: InternalMsg): Text { if m.priv.haveLargeBin then m.priv.largeBin else m.acquirer }

  /** The first character of the record that is not a space, and the digits from there on. */
  function LeadingSpaces(s: Text): (n: nat)
    ensures n <= |s|
  {
    if s != [] && IsSpace(s[0]) then 1 + LeadingSpaces(s[1..]) else 0
  }

  /** The edit of refnum in place: leading spaces become zeros and the text ends at the first non-digit. */
  function RefnumKept(s: Text): (r: Text)
    ensures AllDigits(r) && |r| <= |s|
  {
    var k := LeadingSpaces(s);
    seq(k, _ => 0x30) + DigitPrefix(s[k..])
  }

  /** sprintf("%012s"), padding with blanks, cut at twelve characters. */
  function RightOfTwelve(d: Text): (r: Text)
    ensures |r| == 12
  {
    if |d| >= 12 then d[..12] else seq(12 - |d|, _ => 0x20) + d
  }

  function RefnumText(s: Text): (r: Text)
    ensures |r| == 12
  {
    RightOfTwelve(RefnumKept(s))
  }

  /** The expiry digits after the separator of track 2. */
  function Expiry(m: InternalMsg): int { Atoi(CStr(Fixed(if m.track2 == [] then [] else m.track2[1..], 4))) }

  /** Field 14 out: no date becomes 1111; a first half below 13 is taken for a month and swapped. */
  function ExpiryOut(j: int): int
  {
    if j <= 0 then 1111 else if j / 100 < 13 then j % 100 * 100 + j / 100 else j
  }

  /** The value a field has in the record. */
  function Content(f: nat, m: InternalMsg): FieldValue
    requires Carried(f)
  {
    match f
    case 2 => Txt(StripLeadingZeros(m.pan))
    case 3 => Num(m.pcode)
    case 4 => Txt(m.amount)
    case 7 => FieldValue(Rem(m.trandate, 10_000), m.trantime, [])
    case 11 => Num(m.trace)
    case 12 => Num(m.localTime)
    case 13 => Num(Rem(m.localDate, 10_000))
    case 14 => Num(Expiry(m))
    case 15 => Num(Rem(m.settlementDate, 10_000))
    case 16 => Num(Rem(m.issConvDate, 10_000))
    case 18 => Num(m.merchantType)
    case 19 => Num(m.acqCountry)
    case 22 => Num(m.posEntry)
    case 23 => Num(m.cardSeqno)
    case 25 => Num(m.posCondition)
    case 26 => Num(m.posPinCap)
    case 32 => Txt(StripLeadingZeros(InstId(m)))
    case 33 => Txt(StripLeadingZeros(m.originator))
    case 35 => Txt(m.track2)
    case 37 => Txt(RefnumText(m.refnum))
    case 38 => Txt(Fixed(m.authnum, 6))
    case 41 => Txt(Fixed(m.termid, 8))
    case 42 => Txt(Fixed(m.termloc, 15))
    case 43 => Txt(Fixed(m.acceptorname, 40))
    case 45 => Txt(CStr(m.track2))
    case 49 => Num(m.acqCurrency)
    case 50 => Num(m.settlementCode)
    case 51 => Num(m.issCurrency)
    case 52 => Txt(Fixed(m.pin, 16))
    case 59 => Txt(CStr(m.posGeo))
    case 60 => Num(m.posCap)
    case 64 => Txt(Fixed(m.mac, 16))
  }

  /** The members of the record that a field is kept in. */
  function Member(f: nat, m: InternalMsg): FieldValue
    requires Carried(f)
  {
    match f
    case 2 => Txt(m.pan)
    case 3 => Num(m.pcode)
    case 4 => Txt(m.amount)
    case 7 => FieldValue(m.trandate, m.trantime, [])
    case 11 => Num(m.trace)
    case 12 => Num(m.localTime)
    case 13 => Num(m.localDate)
    case 15 => Num(m.settlementDate)
    case 16 => Num(m.issConvDate)
    case 18 => Num(m.merchantType)
    case 19 => Num(m.acqCountry)
    case 22 => Num(m.posEntry)
    case 23 => Num(m.cardSeqno)
    case 25 => Num(m.posCondition)
    case 26 => Num(m.posPinCap)
    case 32 => Txt(InstId(m))
    case 33 => Txt(m.originator)
    case 37 => Txt(m.refnum)
    case 38 => Txt(m.authnum)
    case 41 => Txt(m.termid)
    case 42 => Txt(m.termloc)
    case 43 => Txt(m.acceptorname)
    case 49 => Num(m.acqCurrency)
    case 50 => Num(m.settlementCode)
    case 51 => Num(m.issCurrency)
    case 52 => Txt(m.pin)
    case 59 => Txt(m.posGeo)
    case 60 => Num(m.posCap)
    case 64 => Txt(m.mac)
    case _ => Txt(m.track2)
  }

  lemma ContentFromMember(f: nat, a: InternalMsg, b: InternalMsg)
    requires Carried(f) && Member(f, a) == Member(f, b)
    ensures Content(f, a) == Content(f, b)
  {}

  // ---- shorts that are sent as ints -------------------------------------------------------------

  /** The fields that FMT_BTOS sends: a short of the record, read through its pointer as an int. */
  predicate IsShort(f: nat) { f in {18, 19, 22, 23, 25, 49, 50, 51, 60} }

  /** The low half of a 32-bit int. */
  function LowHalf(v: int): (h: nat)
    ensures h < 65536
  {
    v % 65536
  }

  /** The first two characters of an array, as a little-endian short. */
  function TwoCells(s: Text): (h: nat)
    ensures h < 65536
  {
    CharAt(s, 0) + 256 * CharAt(s, 1)
  }

  /**
   * The two bytes behind the short of field f in struct internalmsg, on a little-endian machine with natural
   * alignment: the next short, the low half of a date, the first cells of an array, or padding. acq_conv_date,
   * behind the short of field 49, is never set.
   */
  function Behind(f: nat, m: InternalMsg): (h: nat)
    requires IsShort(f)
    ensures h < 65536
  {
    match f
    case 18 => LowHalf(m.acqCountry)
    case 19 => LowHalf(m.cardSeqno)
    case 22 => LowHalf(m.posCondition)
    case 25 => m.posPinCap
    case 50 => TwoCells(m.settlementAmount)
    case 51 => LowHalf(m.issConvDate)
    case 60 => TwoCells(m.posGeo)
    case _ => 0
  }

  /** The digits FMT_BTOS gives a field. */
  function ShortDigits(f: nat): nat
    requires IsShort(f)
  {
    if f in {18, 19, 22, 23} then 4 else if f in {25, 60} then 2 else 3
  }

  /** The int that starts at the short of field f. */
  function IntAt(f: nat, m: InternalMsg): (v: nat)
    requires IsShort(f)
    ensures v < 0x1_0000_0000
  {
    LowHalf(Content(f, m).num) + 65536 * Behind(f, m)
  }

  /** The value the encoder puts on the wire: the content, but for the expiry date and the shorts. */
  function WireValue(f: nat, m: InternalMsg): FieldValue
    requires Carried(f)
  {
    if f == 14 then Num(ExpiryOut(Expiry(m)))
    else if IsShort(f) then Num(Leading(IntAt(f, m), ShortDigits(f)))
    else Content(f, m)
  }

  /** What goes out for field f is what the record holds. */
  predicate Unspoiled(f: nat, m: InternalMsg)
    requires Carried(f)
  {
    WireValue(f, m) == Content(f, m)
  }

  /** A short in its range is sent as it is when nothing but zeros is behind it. */
  lemma NothingBehind(f: nat, m: InternalMsg)
    requires IsShort(f) && 0 <= Content(f, m).num < Pow10(ShortDigits(f)) && Behind(f, m) == 0
    ensures Carried(f) && Unspoiled(f, m)
  {
    hide Content, Leading, Behind, ShortDigits, Pow10, Value, ItoaText;
    ShortIsNumber(f, m);
    ShortRoom(f);
    var c := Content(f, m).num;
    assert IntAt(f, m) == c;
    ItoaValue(c, ShortDigits(f));
  }

  /**
   * What is behind a short spoils it, unless it is zero or the short has all its digits and heads the int of which it
   * is the low half.
   */
  lemma SpoiledBehind(f: nat, m: InternalMsg)
    requires IsShort(f) && 0 <= Content(f, m).num < Pow10(ShortDigits(f))
    ensures Carried(f)
    ensures IntAt(f, m) == Content(f, m).num + 65536 * Behind(f, m)
    ensures var s, n := Content(f, m).num, ShortDigits(f);
            Unspoiled(f, m) <==>
              Behind(f, m) == 0 || (Pow10(n - 1) <= s && exists k: nat :: Heads(s, IntAt(f, m), k))
  {
    hide Content, Leading, Behind, Pow10, Heads;
    ShortIsNumber(f, m);
    ShortRoom(f);
    var s := Content(f, m).num;
    assert IntAt(f, m) == s + 65536 * Behind(f, m);
    if Behind(f, m) == 0 {
      NothingBehind(f, m);
    } else {
      LeadingHeads(IntAt(f, m), ShortDigits(f), s);
    }
  }

  /** A short that does not fill its digits is sent as it is exactly when nothing but zeros is behind it. */
  lemma SmallSpoiled(f: nat, m: InternalMsg)
    requires IsShort(f) && 0 <= Content(f, m).num < Pow10(ShortDigits(f) - 1)
    ensures Carried(f) && (Unspoiled(f, m) <==> Behind(f, m) == 0)
  {
    hide Content, Behind, Unspoiled, Heads;
    Pow10Grows(ShortDigits(f) - 1, ShortDigits(f));
    SpoiledBehind(f, m);
  }

  lemma ShortRoom(f: nat)
    requires IsShort(f)
    ensures Pow10(ShortDigits(f)) <= 10_000
  {
    Pow10Small();
  }

  lemma ShortIsNumber(f: nat, m: InternalMsg)
    requires IsShort(f)
    ensures Carried(f) && Content(f, m) == Num(Content(f, m).num)
  {}

  // ---- storing a decoded value ------------------------------------------------------------------

  const REPLACEMENT_ACQUIRER: Text := [0x30, 0x30, 0x30, 0x30, 0x30, 0x30, 0x30, 0x30, 0x30, 0x34]

  /** The text before the first blank. */
  function CutAtBlank(s: Text): (r: Text)
    ensures |r| <= |s|
  {
    if s == [] || s[0] == 0x20 then [] else [s[0]] + CutAtBlank(s[1..])
  }

  /** The text ends ahead of its first blank. */
  lemma {:induction false} CutExact(s: Text) returns (k: nat)
    ensures k <= |s| && CutAtBlank(s) == s[..k]
    ensures (forall i :: 0 <= i < k ==> s[i] != 0x20) && (k < |s| ==> s[k] == 0x20)
  {
    if s == [] || s[0] == 0x20 {
      k := 0;
    } else {
      var j := CutExact(s[1..]);
      k := j + 1;
      assert s[..k] == [s[0]] + s[1..][..j];
    }
  }

  datatype Option<T> = None | Some(value: T)

  /** extern_make_cardcopcode: the transaction type, or None for a processing code it refuses. */
  function TransactionType(pcode: int): Option<int>
  {
    var txn := pcode / 10_000;
    if txn == 0 then Some(0)
    else if txn == 1 then Some(1)
    else if txn == 3 then Some(3)
    else if txn == 30 || txn >= 90 then Some(30)
    else if txn == 20 then Some(20)
    else if txn == 28 then Some(20)
    else if txn == 40 then Some(40)
    else if txn == 84 || txn == 82 then Some(82)
    else None
  }

  predicate AcceptedPcode(pcode: int)
  {
    && TransactionType(pcode).Some?
    && pcode / 100 % 100 in {0, 10, 20, 30}
    && pcode % 100 == 0
  }

  /** A month and day with the current year in front (cardco_fmtgetdate_from_mmdd). */
  function WithYear(env: Env, mmdd: int): int { env.year * 10_000 + mmdd }

  /** A processing code or an expiry date that makes the decoder reject the message. */
  predicate Refused(f: nat, c: FieldValue)
  {
    || (f == 3 && !AcceptedPcode(c.num))
    || (f == 14 && (c.num % 100 > 12 || c.num % 100 == 0 || c.num / 100 > 99))
  }

  /** What field 14, 35 or 45 leaves in track 2. */
  function TrackIn(f: nat, c: FieldValue, was: Text, bm: Bitmap): Text
    requires |bm| == 8
  {
    if f == 14 then (if !IsSet(bm, 34) && !IsSet(bm, 44) then [0x3D] + ItoaText(Unsigned(c.num), 4) else was)
    else if f == 35 then (if |c.text| % 2 == 1 then c.text[1..] else c.text)
    else if f == 45 then c.text
    else was
  }

  /** What field 32 leaves in the saved data: a long institution id is kept apart. */
  function LargeBinIn(f: nat, c: FieldValue, p: PrivateData): PrivateData
  {
    p.(haveLargeBin := if f == 32 then |c.text| > 9 else p.haveLargeBin,
       largeBin := if f == 32 && |c.text| > 9 then c.text else p.largeBin)
  }

  /** The record after field f was stored, member by member. */
  function Stored(f: nat, c: FieldValue, m: InternalMsg, bm: Bitmap, env: Env): InternalMsg
    requires |bm| == 8
  {
    m.(pan := if f == 2 then c.text else m.pan,
       pcode := if f == 3 then c.num else m.pcode,
       txntype := if f == 3 && TransactionType(c.num).Some? then TransactionType(c.num).value else m.txntype,
       fromAcct := if f == 3 then c.num / 100 % 100 else m.fromAcct,
       amount := if f == 4 then c.text else m.amount,
       trandate := if f == 7 then WithYear(env, c.num) else m.trandate,
       trantime := if f == 7 then c.aux else m.trantime,
       trace := if f == 11 then c.num else m.trace,
       localTime := if f == 12 then c.num else m.localTime,
       localDate := if f == 13 then WithYear(env, c.num) else m.localDate,
       settlementDate := if f == 15 then WithYear(env, c.num) else m.settlementDate,
       issConvDate := if f == 16 then WithYear(env, c.num) else m.issConvDate,
       merchantType := if f == 18 then c.num else m.merchantType,
       acqCountry := if f == 19 then c.num else m.acqCountry,
       posEntry := if f == 22 then c.num else m.posEntry,
       cardSeqno := if f == 23 then c.num else m.cardSeqno,
       posCondition := if f == 25 then c.num else m.posCondition,
       posPinCap := if f == 26 then c.num % 256 else m.posPinCap,
       acquirer := if f == 32 then (if |c.text| > 9 then REPLACEMENT_ACQUIRER else c.text) else m.acquirer,
       priv := LargeBinIn(f, c, m.priv),
       originator := if f == 33 then c.text else m.originator,
       track2 := TrackIn(f, c, m.track2, bm),
       refnum := if f == 37 then CutAtBlank(CStr(c.text)) else m.refnum,
       authnum := if f == 38 then c.text else m.authnum,
       termid := if f == 41 then c.text else m.termid,
       termloc := if f == 42 then c.text else m.termloc,
       acceptorname := if f == 43 then c.text else m.acceptorname,
       acqCurrency := if f == 49 then c.num else m.acqCurrency,
       settlementCode := if f == 50 then c.num else m.settlementCode,
       issCurrency := if f == 51 then c.num else m.issCurrency,
       pin := if f == 52 then c.text else m.pin,
       posGeo := if f == 59 then c.text else m.posGeo,
       posCap := if f == 60 then c.num else m.posCap,
       mac := if f == 64 then c.text else m.mac)
  }

  /** The record after the decoder stored field f; None when it rejects the message. */
  function Store(f: nat, c: FieldValue, m: InternalMsg, bm: Bitmap, env: Env): Option<InternalMsg>
    requires Carried(f) && |bm| == 8
  {
    if Refused(f, c) then None else Some(Stored(f, c, m, bm, env))
  }

  /** Fields that keep their value in the same member. */
  predicate Independent(f: nat, g: nat) { f != g && !(f in {14, 35, 45} && g in {14, 35, 45}) }

  /** Storing one field leaves the members of every independent field alone. */
  lemma StoreKeepsOthers(f: nat, c: FieldValue, m: InternalMsg, bm: Bitmap, env: Env, g: nat)
    requires Carried(f) && Carried(g) && Independent(f, g) && |bm| == 8
    ensures Store(f, c, m, bm, env).Some? ==> Member(g, Store(f, c, m, bm, env).value) == Member(g, m)
  {}

  /** The wire values whose storing reproduces them as the content of the field. */
  predicate Restores(f: nat, c: FieldValue, bm: Bitmap)
    requires Carried(f) && |bm| == 8
  {
    match f
    case 2 => StripLeadingZeros(c.text) == c.text
    case 3 => AcceptedPcode(c.num)
    case 14 => 1 <= c.num % 100 <= 12 && !IsSet(bm, 34) && !IsSet(bm, 44)
    case 32 => StripLeadingZeros(c.text) == c.text
    case 33 => StripLeadingZeros(c.text) == c.text
    case 35 => |c.text| % 2 == 0
    case 37 => AllDigits(c.text)
    case 45 => CStr(c.text) == c.text
    case 59 => CStr(c.text) == c.text
    case _ => true
  }

  /** What storing a value leaves in the members of its field. */
  function Landed(f: nat, c: FieldValue, env: Env): FieldValue
    requires Carried(f)
  {
    match f
    case 7 => FieldValue(WithYear(env, c.num), c.aux, [])
    case 13 => Num(WithYear(env, c.num))
    case 15 => Num(WithYear(env, c.num))
    case 16 => Num(WithYear(env, c.num))
    case 26 => Num(c.num % 256)
    case 14 => Txt([0x3D] + ItoaText(Unsigned(c.num), 4))
    case 35 => Txt(if |c.text| % 2 == 1 then c.text[1..] else c.text)
    case 37 => Txt(CutAtBlank(CStr(c.text)))
    case _ => if f in {2, 4, 32, 33, 38, 41, 42, 43, 45, 52, 59, 64} then Txt(c.text) else Num(c.num)
  }

  lemma StoreLands(f: nat, c: FieldValue, m: InternalMsg, bm: Bitmap, env: Env)
    requires Carried(f) && |bm| == 8 && (f !in {14, 45} || Restores(f, c, bm))
    ensures Store(f, c, m, bm, env).Some? ==> Member(f, Store(f, c, m, bm, env).value) == Landed(f, c, env)
  {}

  lemma {:induction false} NoSpaces(s: Text)
    requires AllDigits(s)
    ensures LeadingSpaces(s) == 0 && CutAtBlank(s) == s && CStr(s) == s
  {
    if s != [] { NoSpaces(s[1..]); }
  }

  lemma RefnumDigits(s: Text)
    requires AllDigits(s) && |s| == 12
    ensures RefnumText(s) == s && CutAtBlank(CStr(s)) == s
  {
    NoSpaces(s);
    DigitPrefixAll(s);
    assert s[0..] == s;
  }

  lemma ExpiryStored(v: int, m: InternalMsg)
    requires 0 <= v < 10_000 && m.track2 == [0x3D] + ItoaText(v, 4)
    ensures Expiry(m) == v
  {
    var t := ItoaText(v, 4);
    assert m.track2[1..] == t;
    CStrWhole(t);
    AtoiValue(t);
    Pow10Small();
    ItoaValue(v, 4);
  }

  /** A stored value is the content of its field. */
  lemma StoreGives(f: nat, c: FieldValue, m: InternalMsg, bm: Bitmap, env: Env)
    requires Carried(f) && |bm| == 8 && Fits(ShapeOf(f), c) && Restores(f, c, bm)
    ensures Store(f, c, m, bm, env).Some? && Content(f, Store(f, c, m, bm, env).value) == c
  {
    if f in {7, 13, 15, 16} {
      StoreGivesDate(f, c, m, bm, env);
    } else if f == 14 {
      StoreGivesExpiry(c, m, bm, env);
    } else if f == 37 {
      RefnumDigits(c.text);
    } else {
      StoreGivesPlain(f, c, m, bm, env);
    }
  }

  lemma StoreGivesPlain(f: nat, c: FieldValue, m: InternalMsg, bm: Bitmap, env: Env)
    requires Carried(f) && f !in {7, 13, 14, 15, 16, 37} && |bm| == 8
    requires Fits(ShapeOf(f), c) && Restores(f, c, bm)
    ensures Store(f, c, m, bm, env).Some? && Content(f, Store(f, c, m, bm, env).value) == c
  {
    hide ItoaText, Pow10, AcceptedPcode, TransactionType, CutAtBlank, Expiry, RefnumText, AllRestorable, AllNibbles;
  }

  lemma StoreGivesExpiry(c: FieldValue, m: InternalMsg, bm: Bitmap, env: Env)
    requires |bm| == 8 && Fits(Number(4), c) && Restores(14, c, bm)
    ensures Store(14, c, m, bm, env).Some? && Content(14, Store(14, c, m, bm, env).value) == c
  {
    hide ItoaText, Expiry;
    Pow10Small();
    ExpiryStored(c.num, Store(14, c, m, bm, env).value);
  }

  lemma StoreGivesDate(f: nat, c: FieldValue, m: InternalMsg, bm: Bitmap, env: Env)
    requires f in {7, 13, 15, 16} && |bm| == 8 && Fits(ShapeOf(f), c)
    ensures Store(f, c, m, bm, env).Some? && Content(f, Store(f, c, m, bm, env).value) == c
  {
    Pow10Small();
    assert 0 <= c.num < 10_000;
    assert Rem(env.year * 10_000 + c.num, 10_000) == c.num;
  }
}
