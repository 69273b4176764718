/** The message templates and the lookup that copies them out (bitmap.c). */
module Templates {
  import opened Memory
  import opened Bitmaps

  const MSG_ATM := 1
  const MSG_POS := 2
  const MSG_BOTH := 3

  const IDX_100: seq<int> := [2, 3, 4, 7, 11, 18, 19, 22, 25, 32, 37, 41, 42, 49, -1]
  const IDX_120: seq<int> := [2, 3, 4, 7, 11, 18, 19, 22, 25, 32, 37, 38, 39, 41, 42, 43, 44, 49, 120, -1]
  const IDX_110: seq<int> := [2, 3, 4, 7, 11, 19, 25, 32, 37, 38, 39, 49, -1]
  const IDX_130: seq<int> := [2, 3, 4, 7, 11, 19, 25, 32, 37, 39, 41, 42, 49, -1]
  const IDX_302: seq<int> := [7, 11, 37, 101, 127, -1]
  const IDX_312: seq<int> := [7, 37, 39, -1]
  const IDX_400: seq<int> := [2, 3, 4, 7, 11, 18, 19, 22, 25, 32, 37, 38, 41, 42, 49, 90, -1]
  const IDX_420: seq<int> := [2, 3, 4, 7, 11, 18, 19, 22, 25, 32, 37, 38, 39, 41, 42, 49, 90, -1]
  const IDX_410: seq<int> := [2, 3, 4, 7, 11, 32, 37, 39, 49, -1]
  const IDX_620: seq<int> := [7, 11, 33, 60, 63, 100, -1]
  const IDX_630: seq<int> := [7, 11, 33, 39, 63, 100, -1]
  const IDX_800: seq<int> := [7, 37, 70, -1]

  const STORES: nat := 13
  const ROWS: nat := 16

  /**
   * A row of msgmap[]: `store` says which of the static maps it points at, `hasList` whether its idx is
   * other than NULL.
   */
  datatype Row = Row(store: nat, hasList: bool, msgno: int, typ: nat)

  function RowAt(i: nat): (row: Row)
    requires i < ROWS
    ensures row.store < STORES && row.typ == MSG_BOTH
  {
    match i
    case 0 => Row(0, true, 100, MSG_BOTH)
    case 1 => Row(0, false, 101, MSG_BOTH)
    case 2 => Row(1, true, 120, MSG_BOTH)
    case 3 => Row(2, true, 110, MSG_BOTH)
    case 4 => Row(3, true, 130, MSG_BOTH)
    case 5 => Row(4, true, 400, MSG_BOTH)
    case 6 => Row(4, false, 401, MSG_BOTH)
    case 7 => Row(5, true, 420, MSG_BOTH)
    case 8 => Row(6, true, 410, MSG_BOTH)
    case 9 => Row(7, true, 600, MSG_BOTH)
    case 10 => Row(8, true, 610, MSG_BOTH)
    case 11 => Row(9, true, 800, MSG_BOTH)
    case 12 => Row(10, true, 810, MSG_BOTH)
    case 13 => Row(9, false, 820, MSG_BOTH)
    case 14 => Row(11, true, 302, MSG_BOTH)
    case 15 => Row(12, true, 302, MSG_BOTH)
  }

  /** The row that builds a static map. */
  function BuilderOf(store: nat): (i: nat)
    requires store < STORES
    ensures i < ROWS && RowAt(i).store == store && RowAt(i).hasList
  {
    match store
    case 0 => 0
    case 1 => 2
    case 2 => 3
    case 3 => 4
    case 4 => 5
    case 5 => 7
    case 6 => 8
    case 7 => 9
    case 8 => 10
    case 9 => 11
    case 10 => 12
    case 11 => 14
    case 12 => 15
  }

  /** The index list of a static map. */
  function ListOf(store: nat): (idx: seq<int>)
    requires store < STORES
    ensures IndexList(idx)
  {
    match store
    case 0 => IDX_100
    case 1 => IDX_120
    case 2 => IDX_110
    case 3 => IDX_130
    case 4 => IDX_400
    case 5 => IDX_420
    case 6 => IDX_410
    case 7 => IDX_620
    case 8 => IDX_630
    case 9 => IDX_800
    case 10 => IDX_800
    case 11 => IDX_302
    case 12 => IDX_312
  }

  predicate Matches(row: Row, msgno: int, typ: nat) { row.msgno == msgno && And(row.typ, typ) != 0 }

  /** The first matching row from i on, or ROWS. */
  function FirstMatch(msgno: int, typ: nat, i: nat): (k: nat)
    requires i <= ROWS
    ensures i <= k <= ROWS
    ensures k < ROWS ==> Matches(RowAt(k), msgno, typ)
    ensures forall j :: i <= j < k ==> !Matches(RowAt(j), msgno, typ)
    decreases ROWS - i
  {
    if i == ROWS || Matches(RowAt(i), msgno, typ) then i else FirstMatch(msgno, typ, i + 1)
  }

  /** What a caller may do with the pointer that find_bitmap returned. */
  datatype Use = Lookup(msgno: int, typ: nat) | On(bit: nat) | Off(bitno: nat)

  class MapStore {
    const stores: seq<array<byte>>
    const lists: seq<seq<int>>
    const buffer: array<byte>

    ghost predicate Valid()
    {
      && |stores| == |lists| == STORES
      && (forall s :: 0 <= s < STORES ==> stores[s].Length == 16 && stores[s] != buffer && IndexList(lists[s]))
      && (forall s, t :: 0 <= s < t < STORES ==> stores[s] != stores[t])
      && buffer.Length == 20
    }

    /** Static map number s selects exactly the fields of its list. */
    ghost predicate Built(s: nat)
      requires Valid() && s < STORES
      reads stores[s]
    {
      Fields(stores[s][..]) == Listed(lists[s])
    }

    ghost predicate AllBuilt()
      requires Valid()
      reads stores
    {
      forall s :: 0 <= s < STORES ==> Built(s)
    }

    constructor ()
      ensures Valid() && fresh(stores) && fresh(buffer)
      ensures forall s :: 0 <= s < STORES ==> lists[s] == ListOf(s)
      ensures forall s :: 0 <= s < STORES ==> stores[s][..] == Zeros(16)
    {
      var made: seq<array<byte>> := [];
      while |made| < STORES
        invariant |made| <= STORES && fresh(made)
        invariant forall s :: 0 <= s < |made| ==> made[s].Length == 16 && made[s][..] == Zeros(16)
        invariant forall s, t :: 0 <= s < t < |made| ==> made[s] != made[t]
      {
        var a := new byte[16](_ => 0);
        made := made + [a];
      }
      stores := made;
      lists := seq(STORES, s requires 0 <= s < STORES => ListOf(s));
      buffer := new byte[20](_ => 0);
    }

    /** create_bitmaps: one pass over the rows that carry a list. */
    method CreateBitmaps()
      requires Valid() && forall s :: 0 <= s < STORES ==> stores[s][..] == Zeros(16)
      modifies stores
      ensures AllBuilt()
    {
      hide Built, Zeros;
      var i := 0;
      while i < ROWS
        invariant 0 <= i <= ROWS
        invariant forall s :: 0 <= s < STORES ==> stores[s][..] == Zeros(16) || Built(s)
        invariant forall s :: 0 <= s < STORES && BuilderOf(s) < i ==> Built(s)
      {
        var row := RowAt(i);
        if row.hasList {
          BuildOne(row.store);
        }
        i := i + 1;
      }
    }

    method BuildOne(s: nat)
      requires Valid() && s < STORES && (stores[s][..] == Zeros(16) || Built(s))
      modifies stores[s]
      ensures Built(s)
    {
      ZeroFields(16);
      MakeBitmap(stores[s], lists[s]);
    }

    /** find_bitmap: copies the first matching map into the static buffer; false stands for NULL. */
    method FindBitmap(msgno: int, typ: nat) returns (found: bool)
      requires Valid()
      modifies buffer
      ensures found <==> FirstMatch(msgno, typ, 0) < ROWS
      ensures found ==> buffer[..16] == stores[RowAt(FirstMatch(msgno, typ, 0)).store][..]
      ensures !found ==> buffer[..] == old(buffer[..])
    {
      var i := 0;
      while i < ROWS
        invariant 0 <= i <= ROWS && FirstMatch(msgno, typ, 0) == FirstMatch(msgno, typ, i)
        invariant buffer[..] == old(buffer[..])
      {
        if Matches(RowAt(i), msgno, typ) {
          var chosen := stores[RowAt(i).store];
          ghost var was := chosen[..];
          Copy(buffer, 0, chosen[..]);
          assert buffer[..16] == was;
          return true;
        }
        i := i + 1;
      }
      found := false;
    }

    /**
     * Any run of lookups and of edits through the returned pointer. The templates survive it, and every
     * successful lookup starts again from the list of its message type.
     */
    method Serve(uses: seq<Use>) returns (seen: seq<Bitmap>)
      requires Valid() && AllBuilt() && forall k :: 0 <= k < |uses| ==> InBuffer(uses[k])
      modifies buffer
      ensures AllBuilt() && |seen| == |uses|
      ensures forall k :: 0 <= k < |uses| ==> Fresh(uses[k], seen[k])
    {
      seen := [];
      var i := 0;
      while i < |uses|
        invariant 0 <= i <= |uses| && |seen| == i
        invariant AllBuilt()
        invariant forall k :: 0 <= k < i ==> Fresh(uses[k], seen[k])
      {
        var one := ServeOne(uses[i]);
        seen := seen + [one];
        i := i + 1;
      }
    }

    /** A lookup that finds a row gives back the fields of its list. */
    ghost predicate Fresh(use: Use, bm: Bitmap)
      requires Valid()
    {
      use.Lookup? ==>
        var row := FirstMatch(use.msgno, use.typ, 0);
        row < ROWS ==> Fields(bm) == Listed(lists[RowAt(row).store])
    }

    method ServeOne(use: Use) returns (bm: Bitmap)
      requires Valid() && AllBuilt() && InBuffer(use)
      modifies buffer
      ensures AllBuilt() && Fresh(use, bm)
    {
      match use {
        case Lookup(msgno, typ) =>
          var found := FindBitmap(msgno, typ);
          if found { assert Built(RowAt(FirstMatch(msgno, typ, 0)).store); }
        case On(bit) => SetBitOn(buffer, 0, bit);
        case Off(bitno) => SetBitOff(buffer, 0, bitno);
      }
      assert forall s :: 0 <= s < STORES ==> Built(s) == old(Built(s));
      bm := buffer[..16];
    }
  }

  predicate InBuffer(use: Use)
  {
    match use
    case Lookup(_, _) => true
    case On(bit) => bit <= 128
    case Off(bitno) => bitno < 128
  }

  /** The store that holds the template of a message type. */
  function StoreOf(msgno: int): nat
    requires msgno in {100, 110, 120, 130, 400, 410, 420}
  {
    match msgno case 100 => 0 case 120 => 1 case 110 => 2 case 130 => 3 case 400 => 4 case 420 => 5 case _ => 6
  }

  /** The fields a message type starts from, when it is answered locally. */
  ghost function TemplateFields(msgno: int): set<int>
    requires msgno in {100, 110, 120, 130, 400, 410, 420}
  {
    Listed(ListOf(StoreOf(msgno)))
  }

  lemma ByType(msgno: int, i: nat)
    requires msgno in {100, 110, 120, 130, 400, 410, 420} && i < ROWS
    ensures RowAt(i).msgno == msgno <==> i == BuilderOf(StoreOf(msgno))
  {}

  lemma BothIsAny(typ: nat)
    requires typ in {MSG_ATM, MSG_POS, MSG_BOTH}
    ensures And(MSG_BOTH, typ) != 0
  {
    assert And(MSG_BOTH, typ) == 2 * And(1, typ / 2) + (if typ % 2 == 1 then 1 else 0);
    if typ == 2 { assert And(1, 1) == 2 * And(0, 0) + 1; }
  }

  /** The lookup finds the row of the type itself, whatever kind of device asks. */
  lemma LookupByType(msgno: int, typ: nat)
    requires msgno in {100, 110, 120, 130, 400, 410, 420} && typ in {MSG_ATM, MSG_POS, MSG_BOTH}
    ensures FirstMatch(msgno, typ, 0) == BuilderOf(StoreOf(msgno))
  {
    BothIsAny(typ);
    var k, row := BuilderOf(StoreOf(msgno)), FirstMatch(msgno, typ, 0);
    ByType(msgno, k);
    assert Matches(RowAt(k), msgno, typ);
    assert row <= k;
    ByType(msgno, row);
  }

  lemma TypeOfRow(i: nat)
    requires i < ROWS
    ensures RowAt(i).msgno !in {111, 210, 211, 230, 411, 430}
  {}

  /** Message types without a template, among them the answers to repeats and to financial requests. */
  lemma NoTemplate(msgno: int, typ: nat)
    requires msgno in {111, 210, 211, 230, 411, 430}
    ensures FirstMatch(msgno, typ, 0) == ROWS
  {
    var row := FirstMatch(msgno, typ, 0);
    if row < ROWS { TypeOfRow(row); }
  }
}
