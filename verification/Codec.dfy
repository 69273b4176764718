/**
 * The two field loops as a whole: the encoder of v_tonet.c and the decoder of v_tocardco.c over an eight-byte
 * map, and the laws that tie them together.
 */
module Codec {
  import opened Memory
  import opened Digits
  import opened Ebcdic
  import opened Zoned
  import opened Bitmaps
  import opened Message
  import opened Shapes
  import opened Layout
  import opened Wire

  /** The bytes the encoder writes for the fields from f on. */
  function Encoded(f: nat, bm: Bitmap, m: InternalMsg, net: seq<byte>): seq<byte>
    requires 1 <= f <= 65 && |bm| == 8 && |net| == 8 && !IsSet(bm, 44)
    decreases 65 - f, |bm|
  {
    if f == 65 then []
    else if IsSet(bm, f) then Written(f, m, net) + Encoded(f + 1, bm, m, net)
    else Encoded(f + 1, bm, m, net)
  }

  /** The decoder notes after every field the type and the map of the message in filler1. */
  function Noted(m: InternalMsg, bm: Bitmap): InternalMsg
  {
    m.(filler1Type := Padded(m.msgtype, 4), filler1Map := bm)
  }

  /** The decoder from field f on. A map that calls for a second map leads outside the primary fields. */
  function Decoded(f: nat, bm: Bitmap, m: InternalMsg, env: Env, b: seq<byte>): Step
    requires 1 <= f <= 65 && |bm| == 8
    decreases 65 - f, |bm|
  {
    if f == 65 then (if IsSet(bm, 1) then Outside else Done(m, 0))
    else if !IsSet(bm, f) then Decoded(f + 1, bm, m, env, b)
    else
      match ReadField(f, m, bm, env, b)
      case Rejected => Rejected
      case Outside => Outside
      case Done(m1, n1) =>
        if n1 > |b| then Outside
        else
          match Decoded(f + 1, bm, Noted(m1, bm), env, b[n1..])
          case Rejected => Rejected
          case Outside => Outside
          case Done(m2, n2) => Done(m2, n1 + n2)
  }

  /** Track 2 is the home of fields 14, 35 and 45; a message carries at most one of them. */
  predicate OneTrack(bm: Bitmap)
    requires |bm| == 8
  {
    && !(IsSet(bm, 14) && IsSet(bm, 35))
    && !(IsSet(bm, 14) && IsSet(bm, 45))
    && !(IsSet(bm, 35) && IsSet(bm, 45))
  }

  /** Field f is absent, or survives the wire, or at least keeps the cursors together. */
  predicate FieldReady(f: nat, bm: Bitmap, m: InternalMsg)
    requires 1 <= f <= 64 && |bm| == 8
  {
    IsSet(bm, f) ==> f != 44 && if Carried(f) then Sendable(f, m, bm) else Aligned(f, m)
  }

  predicate Ready(bm: Bitmap, m: InternalMsg)
  {
    |bm| == 8 && OneTrack(bm) && forall f :: 1 <= f <= 64 ==> FieldReady(f, bm, m)
  }

  lemma NotedKeeps(m: InternalMsg, bm: Bitmap, g: nat)
    requires Carried(g)
    ensures Member(g, Noted(m, bm)) == Member(g, m)
  {
    PatchedKeepsCarried(m, Noted(m, bm), g);
    assert Noted(m, bm) == Patched(m, Noted(m, bm));
  }

  /** Decoding the fields from f on leaves the members of an earlier field alone. */
  lemma {:induction false} DecodedKeeps(f: nat, bm: Bitmap, m: InternalMsg, env: Env, b: seq<byte>, g: nat)
    requires 1 <= f <= 65 && |bm| == 8 && Carried(g)
    requires forall h :: f <= h <= 64 && IsSet(bm, h) ==> Independent(h, g)
    ensures var d := Decoded(f, bm, m, env, b);
            d.Done? ==> Member(g, d.m) == Member(g, m)
    decreases 65 - f
  {
    hide ReadField, Member, Carried, Independent;
    if f < 65 {
      if !IsSet(bm, f) {
        DecodedKeeps(f + 1, bm, m, env, b, g);
      } else {
        var r := ReadField(f, m, bm, env, b);
        if r.Done? && r.n <= |b| {
          ReadKeepsOthers(f, m, bm, env, b, g);
          NotedKeeps(r.m, bm, g);
          DecodedKeeps(f + 1, bm, Noted(r.m, bm), env, b[r.n..], g);
        }
      }
    }
  }

  lemma LaterIndependent(bm: Bitmap, f: nat, g: nat)
    requires |bm| == 8 && OneTrack(bm) && 1 <= g < f <= 65 && IsSet(bm, g)
    ensures forall h :: f <= h <= 64 && IsSet(bm, h) ==> Independent(h, g)
  {}

  /** One field of the round trip: the decoder takes exactly the bytes written and stores a carried value. */
  lemma FieldBack(f: nat, bm: Bitmap, m: InternalMsg, m0: InternalMsg, env: Env, net: seq<byte>, rest: seq<byte>)
    requires 1 <= f <= 64 && |bm| == 8 && |net| == 8 && IsSet(bm, f) && FieldReady(f, bm, m)
    ensures f != 44
    ensures var r := ReadField(f, m0, bm, env, Written(f, m, net) + rest);
            && r.Done? && r.n == |Written(f, m, net)|
            && (Carried(f) ==> Arrived(f, r.m, m, env))
  {
    if Carried(f) {
      CarriedBack(f, m, m0, bm, env, net, rest);
    } else {
      PassiveAligned(f, m, m0, env, net, rest);
    }
  }

  /** The decoder's turn for a field that is there. */
  lemma DecodedTurn(f: nat, bm: Bitmap, m: InternalMsg, env: Env, b: seq<byte>, r: Step, t: Step)
    requires 1 <= f <= 64 && |bm| == 8 && IsSet(bm, f)
    requires r == ReadField(f, m, bm, env, b) && r.Done? && r.n <= |b|
    requires t == Decoded(f + 1, bm, Noted(r.m, bm), env, b[r.n..]) && t.Done?
    ensures Decoded(f, bm, m, env, b) == Done(t.m, r.n + t.n)
  {}

  lemma EncodedTurn(f: nat, bm: Bitmap, m: InternalMsg, net: seq<byte>, rest: seq<byte>)
    requires 1 <= f <= 64 && |bm| == 8 && |net| == 8 && !IsSet(bm, 44) && IsSet(bm, f)
    ensures Encoded(f, bm, m, net) + rest == Written(f, m, net) + (Encoded(f + 1, bm, m, net) + rest)
    ensures |Encoded(f, bm, m, net)| == |Written(f, m, net)| + |Encoded(f + 1, bm, m, net)|
  {
    Joined(Written(f, m, net), Encoded(f + 1, bm, m, net), rest);
  }

  lemma Joined(a: seq<byte>, b: seq<byte>, c: seq<byte>)
    ensures (a + b) + c == a + (b + c) && (a + (b + c))[|a|..] == b + c
  {}

  /** The record r has field g as the record m sent it. */
  predicate Arrived(g: nat, r: InternalMsg, m: InternalMsg, env: Env)
    requires Carried(g)
  {
    Member(g, r) == Landed(g, WireValue(g, m), env)
  }

  /** The field loop of the decoder over the encoder's bytes: where it stands after field f, and with what record. */
  ghost predicate InStep(f: nat, bm: Bitmap, m: InternalMsg, m0: InternalMsg, env: Env, net: seq<byte>, rest: seq<byte>)
    requires 1 <= f <= 65 && |bm| == 8 && |net| == 8 && !IsSet(bm, 44)
  {
    var d := Decoded(f, bm, m0, env, Encoded(f, bm, m, net) + rest);
    && d.Done? && d.n == |Encoded(f, bm, m, net)|
    && forall g {:trigger Arrived(g, d.m, m, env)} ::
         f <= g <= 64 && IsSet(bm, g) && Carried(g) ==> Arrived(g, d.m, m, env)
  }

  /** A field that is not in the map moves neither cursor. */
  lemma SkipInStep(f: nat, bm: Bitmap, m: InternalMsg, m0: InternalMsg, env: Env, net: seq<byte>, rest: seq<byte>)
    requires 1 <= f <= 64 && |bm| == 8 && |net| == 8 && !IsSet(bm, 44) && !IsSet(bm, f)
    requires InStep(f + 1, bm, m, m0, env, net, rest)
    ensures InStep(f, bm, m, m0, env, net, rest)
  {}

  lemma FirstBack(f: nat, bm: Bitmap, m: InternalMsg, m0: InternalMsg, env: Env, net: seq<byte>, rest: seq<byte>)
    returns (m1: InternalMsg)
    requires 1 <= f <= 64 && |bm| == 8 && |net| == 8 && !IsSet(bm, 44) && IsSet(bm, f) && FieldReady(f, bm, m)
    ensures ReadField(f, m0, bm, env, Encoded(f, bm, m, net) + rest) == Done(m1, |Written(f, m, net)|)
    ensures Carried(f) ==> Arrived(f, m1, m, env)
  {
    var after := Encoded(f + 1, bm, m, net) + rest;
    EncodedTurn(f, bm, m, net, rest);
    FieldBack(f, bm, m, m0, env, net, after);
    m1 := ReadField(f, m0, bm, env, Written(f, m, net) + after).m;
  }

  /** One turn of both loops: m1 is the decoder's record after field f. */
  lemma TurnInStep(f: nat, bm: Bitmap, m: InternalMsg, m0: InternalMsg, env: Env, net: seq<byte>, rest: seq<byte>,
                   m1: InternalMsg)
    requires 1 <= f <= 64 && |net| == 8 && Ready(bm, m) && !IsSet(bm, 44) && IsSet(bm, f)
    requires ReadField(f, m0, bm, env, Encoded(f, bm, m, net) + rest) == Done(m1, |Written(f, m, net)|)
    requires Carried(f) ==> Arrived(f, m1, m, env)
    requires InStep(f + 1, bm, m, Noted(m1, bm), env, net, rest)
    ensures InStep(f, bm, m, m0, env, net, rest)
  {
    hide Written, ReadField, Member, Landed, WireValue, Independent, Carried, FieldReady;
    var b, after := Encoded(f, bm, m, net) + rest, Encoded(f + 1, bm, m, net) + rest;
    EncodedTurn(f, bm, m, net, rest);
    var w := Written(f, m, net);
    Joined(w, Encoded(f + 1, bm, m, net), rest);
    var t := Decoded(f + 1, bm, Noted(m1, bm), env, after);
    DecodedTurn(f, bm, m0, env, b, Done(m1, |w|), t);
    if Carried(f) {
      NotedKeeps(m1, bm, f);
      LaterIndependent(bm, f + 1, f);
      DecodedKeeps(f + 1, bm, Noted(m1, bm), env, after, f);
    }
  }

  /**
   * Cursor alignment: on the bytes of the encoder the decoder accepts, stops exactly at their end whatever
   * follows, and holds every carried value that was sent in the members of its field.
   */
  lemma {:induction false} DecodeEncoded(f: nat, bm: Bitmap, m: InternalMsg, m0: InternalMsg, env: Env,
                                         net: seq<byte>, rest: seq<byte>)
    requires 1 <= f <= 65 && |net| == 8 && Ready(bm, m) && !IsSet(bm, 44) && !IsSet(bm, 1)
    ensures InStep(f, bm, m, m0, env, net, rest)
    decreases 65 - f
  {
    if f < 65 {
      if !IsSet(bm, f) {
        DecodeEncoded(f + 1, bm, m, m0, env, net, rest);
        SkipInStep(f, bm, m, m0, env, net, rest);
      } else {
        assert FieldReady(f, bm, m);
        var m1 := FirstBack(f, bm, m, m0, env, net, rest);
        DecodeEncoded(f + 1, bm, m, Noted(m1, bm), env, net, rest);
        TurnInStep(f, bm, m, m0, env, net, rest, m1);
      }
    }
  }

  /** So the content of every carried field that was sent is the value that went out for it. */
  lemma SentContents(bm: Bitmap, m: InternalMsg, m0: InternalMsg, env: Env, net: seq<byte>, rest: seq<byte>, g: nat)
    requires |net| == 8 && Ready(bm, m) && !IsSet(bm, 44) && InStep(1, bm, m, m0, env, net, rest)
    requires 1 <= g <= 64 && IsSet(bm, g) && Carried(g)
    ensures Content(g, Decoded(1, bm, m0, env, Encoded(1, bm, m, net) + rest).m) == WireValue(g, m)
    ensures Fits(ShapeOf(g), WireValue(g, m))
  {
    hide Content, Member, Landed, Store, WireValue, Fits, Restores, Encoded, Decoded, Carried;
    assert FieldReady(g, bm, m);
    var c := WireValue(g, m);
    StoreGives(g, c, BLANK, bm, env);
    StoreLands(g, c, BLANK, bm, env);
    var d := Decoded(1, bm, m0, env, Encoded(1, bm, m, net) + rest);
    assert Arrived(g, d.m, m, env);
    ContentFromMember(g, d.m, Store(g, c, BLANK, bm, env).value);
  }

  /** What goes out for a field whose content fits takes as many bytes as the content would. */
  lemma WireFits(f: nat, m: InternalMsg)
    requires Carried(f) && Fits(ShapeOf(f), Content(f, m))
    ensures Fits(ShapeOf(f), WireValue(f, m))
    ensures |Put(ShapeOf(f), WireValue(f, m))| == |Put(ShapeOf(f), Content(f, m))|
  {
    hide Expiry, Behind, Leading, NumBytes;
    Pow10Small();
    if IsShort(f) { LeadingText(IntAt(f, m), ShortDigits(f)); }
  }

  lemma PutInjective(sh: Shape, a: FieldValue, b: FieldValue)
    requires Fits(sh, a) && Fits(sh, b) && Put(sh, a) == Put(sh, b)
    ensures a == b
  {
    hide Put, Get;
    GetPut(sh, a, []);
    GetPut(sh, b, []);
  }

  /** A field goes out as its content exactly when it is unspoiled, and as long in either case. */
  lemma WrittenAs(f: nat, m: InternalMsg, net: seq<byte>, c: FieldValue)
    requires 1 <= f <= 64 && f != 44 && |net| == 8 && Carried(f) && Content(f, m) == c && Fits(ShapeOf(f), c)
    ensures |Written(f, m, net)| == |Put(ShapeOf(f), c)|
    ensures Written(f, m, net) == Put(ShapeOf(f), c) <==> Unspoiled(f, m)
  {
    hide Put, Fits, WireValue, Content, Carried;
    WireFits(f, m);
    if Written(f, m, net) == Put(ShapeOf(f), c) { PutInjective(ShapeOf(f), WireValue(f, m), c); }
  }

  /** Every carried field from f on goes out as what the record holds. */
  predicate AllUnspoiled(f: nat, bm: Bitmap, m: InternalMsg)
    requires 1 <= f <= 65 && |bm| == 8
  {
    forall g :: f <= g <= 64 && IsSet(bm, g) && Carried(g) ==> Unspoiled(g, m)
  }

  lemma UnspoiledStep(f: nat, bm: Bitmap, m: InternalMsg)
    requires 1 <= f <= 64 && |bm| == 8
    ensures AllUnspoiled(f, bm, m) <==> (IsSet(bm, f) && Carried(f) ==> Unspoiled(f, m)) && AllUnspoiled(f + 1, bm, m)
  {
    hide IsSet, Carried, Unspoiled;
  }

  lemma SplitEqual(w: seq<byte>, e: seq<byte>, b: seq<byte>, t: seq<byte>)
    requires |w| == |b|
    ensures w + e == b + t <==> w == b && e == t
  {
    if w + e == b + t {
      assert (w + e)[..|w|] == w && (w + e)[|w|..] == e;
      assert (b + t)[..|b|] == b && (b + t)[|b|..] == t;
    }
  }

  /** A record with the values that went out for m encodes to the same bytes exactly when it is unspoiled. */
  lemma {:induction false} EncodedSame(f: nat, bm: Bitmap, a: InternalMsg, m: InternalMsg, net: seq<byte>)
    requires 1 <= f <= 65 && |bm| == 8 && |net| == 8 && !IsSet(bm, 44)
    requires forall g :: f <= g <= 64 && IsSet(bm, g) ==>
               Carried(g) && Content(g, a) == WireValue(g, m) && Fits(ShapeOf(g), WireValue(g, m))
    ensures Encoded(f, bm, a, net) == Encoded(f, bm, m, net) <==> AllUnspoiled(f, bm, a)
    decreases 65 - f
  {
    hide Content, WireValue, Fits, Carried, Put, AllUnspoiled, IsSet;
    if f == 65 {
      NoneLeft(bm, a);
    } else {
      UnspoiledStep(f, bm, a);
      EncodedSame(f + 1, bm, a, m, net);
      if IsSet(bm, f) {
        WrittenAs(f, a, net, WireValue(f, m));
        SplitEqual(Written(f, a, net), Encoded(f + 1, bm, a, net), Written(f, m, net), Encoded(f + 1, bm, m, net));
      }
    }
  }

  lemma NoneLeft(bm: Bitmap, m: InternalMsg)
    requires |bm| == 8
    ensures AllUnspoiled(65, bm, m)
  {}

  /**
   * What was decoded from an encoded message encodes to the same bytes exactly when nothing spoils a short of the
   * decoded record, nor its expiry date.
   */
  lemma ReencodeDecoded(bm: Bitmap, m: InternalMsg, m0: InternalMsg, env: Env, net: seq<byte>, rest: seq<byte>)
    requires |net| == 8 && Ready(bm, m) && !IsSet(bm, 44) && !IsSet(bm, 1)
    requires forall g :: 1 <= g <= 64 && IsSet(bm, g) ==> Carried(g)
    ensures var d := Decoded(1, bm, m0, env, Encoded(1, bm, m, net) + rest);
            d.Done? && (Encoded(1, bm, d.m, net) == Encoded(1, bm, m, net) <==> AllUnspoiled(1, bm, d.m))
  {
    hide Content, WireValue, Fits, Carried, AllUnspoiled, IsSet, FieldReady, Encoded, Decoded;
    DecodeEncoded(1, bm, m, m0, env, net, rest);
    var d := Decoded(1, bm, m0, env, Encoded(1, bm, m, net) + rest);
    forall g | 1 <= g <= 64 && IsSet(bm, g)
      ensures Carried(g) && Content(g, d.m) == WireValue(g, m) && Fits(ShapeOf(g), WireValue(g, m))
    {
      SentContents(bm, m, m0, env, net, rest, g);
    }
    EncodedSame(1, bm, d.m, m, net);
  }

  // ---- the other direction ----------------------------------------------------------------------

  /** The bytes at the cursor are what the encoder would write for some value that the record restores. */
  predicate CanonicalField(f: nat, bm: Bitmap, b: seq<byte>)
    requires 1 <= f <= 64 && |bm| == 8
  {
    && Carried(f)
    && CanonicalBytes(ShapeOf(f), b)
    && Restores(f, Get(ShapeOf(f), b).c, bm)
  }

  predicate CanonicalMessage(f: nat, bm: Bitmap, b: seq<byte>)
    requires 1 <= f <= 65 && |bm| == 8
    decreases 65 - f, |bm|
  {
    f < 65 ==>
      if IsSet(bm, f) then CanonicalField(f, bm, b) && CanonicalMessage(f + 1, bm, b[Get(ShapeOf(f), b).n..])
      else CanonicalMessage(f + 1, bm, b)
  }

  lemma ZonedFits(b: seq<byte>)
    ensures AllHex(ToZoned(b)) && forall i :: 0 <= i < |ToZoned(b)| ==> Upper(ToZoned(b)[i]) == ToZoned(b)[i]
  {
    BinaryZoned(b);
    forall i | 0 <= i < |ToZoned(b)| ensures Upper(ToZoned(b)[i]) == ToZoned(b)[i] {
      assert ToZoned(b)[i] == ZonedAt(b, i);
    }
  }

  lemma CanonicalFits(f: nat, b: seq<byte>)
    requires Carried(f) && CanonicalBytes(ShapeOf(f), b)
    ensures Fits(ShapeOf(f), Get(ShapeOf(f), b).c)
  {
    Pow10Small();
    match ShapeOf(f) {
      case Number(len) => NumberAgain(b, len);
      case Stamp => PairAgain(b, 2, 3);
      case Amount =>
      case VarBcd(cap) =>
      case Text8(len) => CanonicalExactly(b[..len]);
      case VarText(cap) =>
        var len: nat := b[0];
        assert b[1..][..len] == b[1..1 + len];
        CanonicalExactly(b[1..1 + len]);
      case Raw =>
      case Hex => ZonedFits(b[..8]);
      case Tagged => TaggedAgain(b, 2);
    }
  }

  /** A canonical field is accepted, and its bytes are those of the value it leaves in the record. */
  lemma FieldAgain(f: nat, bm: Bitmap, m0: InternalMsg, env: Env, b: seq<byte>)
    requires 1 <= f <= 64 && f != 44 && |bm| == 8 && CanonicalField(f, bm, b)
    ensures var r, c := ReadField(f, m0, bm, env, b), Get(ShapeOf(f), b).c;
            && r.Done? && r.n == Get(ShapeOf(f), b).n <= |b|
            && Content(f, r.m) == c && Fits(ShapeOf(f), c) && Put(ShapeOf(f), c) == b[..r.n]
  {
    hide Content, Fits, Put, Get, Store, Restores;
    CanonicalFits(f, b);
    StoreGives(f, Get(ShapeOf(f), b).c, m0, bm, env);
    PutGet(ShapeOf(f), b);
  }

  /**
   * Decoding from field f on succeeds, and encoding the outcome gives the bytes it took exactly when the record is
   * unspoiled.
   */
  ghost predicate WritesBack(f: nat, bm: Bitmap, m0: InternalMsg, env: Env, net: seq<byte>, b: seq<byte>)
    requires 1 <= f <= 65 && |bm| == 8 && |net| == 8 && !IsSet(bm, 44)
  {
    var d := Decoded(f, bm, m0, env, b);
    && d.Done? && d.n <= |b|
    && (Encoded(f, bm, d.m, net) == b[..d.n] <==> AllUnspoiled(f, bm, d.m))
  }

  lemma TurnWritesBack(f: nat, bm: Bitmap, m0: InternalMsg, env: Env, net: seq<byte>, b: seq<byte>, r: Step)
    requires 1 <= f <= 64 && |bm| == 8 && |net| == 8 && OneTrack(bm) && !IsSet(bm, 44) && IsSet(bm, f) && Carried(f)
    requires r == ReadField(f, m0, bm, env, b) && r.Done? && r.n <= |b|
    requires Fits(ShapeOf(f), Content(f, r.m)) && Put(ShapeOf(f), Content(f, r.m)) == b[..r.n]
    requires WritesBack(f + 1, bm, Noted(r.m, bm), env, net, b[r.n..])
    ensures WritesBack(f, bm, m0, env, net, b)
  {
    hide ReadField, Content, Member, Written, Carried, Independent, Fits, Put, AllUnspoiled, Unspoiled;
    var m1, tail := Noted(r.m, bm), b[r.n..];
    var d := Decoded(f + 1, bm, m1, env, tail);
    DecodedTurn(f, bm, m0, env, b, r, d);
    NotedKeeps(r.m, bm, f);
    LaterIndependent(bm, f + 1, f);
    DecodedKeeps(f + 1, bm, m1, env, tail, f);
    ContentFromMember(f, d.m, r.m);
    WrittenAs(f, d.m, net, Content(f, r.m));
    UnspoiledStep(f, bm, d.m);
    TakeInTwo(b, r.n, d.n);
    SplitEqual(Written(f, d.m, net), Encoded(f + 1, bm, d.m, net), b[..r.n], tail[..d.n]);
  }

  /** Encoding what was decoded from canonical bytes gives those bytes back exactly when the record is unspoiled. */
  lemma {:induction false} EncodeDecoded(f: nat, bm: Bitmap, m0: InternalMsg, env: Env, net: seq<byte>, b: seq<byte>)
    requires 1 <= f <= 65 && |bm| == 8 && |net| == 8 && OneTrack(bm) && !IsSet(bm, 44) && !IsSet(bm, 1)
    requires CanonicalMessage(f, bm, b)
    ensures WritesBack(f, bm, m0, env, net, b)
    decreases 65 - f
  {
    hide ReadField, Content, Carried, Fits, Put, Get, AllUnspoiled, Unspoiled, Written, Restores, OneTrack;
    if f == 65 {
      NoneLeft(bm, m0);
    } else if !IsSet(bm, f) {
      EncodeDecoded(f + 1, bm, m0, env, net, b);
      UnspoiledStep(f, bm, Decoded(f, bm, m0, env, b).m);
    } else {
      FieldAgain(f, bm, m0, env, b);
      var r := ReadField(f, m0, bm, env, b);
      EncodeDecoded(f + 1, bm, Noted(r.m, bm), env, net, b[r.n..]);
      TurnWritesBack(f, bm, m0, env, net, b, r);
    }
  }

  // ---- where the two loops part -----------------------------------------------------------------

  lemma FourDigitsAtMost(t: Text)
    requires |t| <= 4
    ensures Value(DigitPrefix(t)) < 10_000
  {
    Pow10Small();
    ValueBound(DigitPrefix(t));
    Pow10Grows(|DigitPrefix(t)|, 4);
  }

  lemma ExpiryBound(m: InternalMsg)
    ensures Expiry(m) < 10_000
  {
    hide DigitPrefix, CStr;
    var t := SkipSpaces(CStr(Fixed(if m.track2 == [] then [] else m.track2[1..], 4)));
    FourDigitsAtMost(t);
    if t != [] { FourDigitsAtMost(t[1..]); }
  }

  /** An expiry date survives exactly when its second half is a month and its first half none, or that month. */
  lemma ExpirySurvives(m: InternalMsg, m0: InternalMsg, bm: Bitmap, env: Env, net: seq<byte>, rest: seq<byte>)
    requires |bm| == 8 && |net| == 8 && !IsSet(bm, 34) && !IsSet(bm, 44)
    ensures var r, x := ReadField(14, m0, bm, env, Written(14, m, net) + rest), Expiry(m);
            (r.Done? && Expiry(r.m) == x) <==> 1 <= x % 100 <= 12 && (x / 100 >= 13 || x / 100 == x % 100)
  {
    hide Expiry, Get, Put, ItoaText, Pow10;
    ExpiryBound(m);
    var x := Expiry(m);
    var v := ExpiryOut(x);
    Pow10Small();
    if 0 < x && x / 100 < 13 { assert v == x % 100 * 100 + x / 100; }
    GetPut(Number(4), Num(v), rest);
    var r := ReadField(14, m0, bm, env, Written(14, m, net) + rest);
    if r.Done? { ExpiryStored(v, r.m); }
  }

  /** Track 2 data survives exactly when its length is even; the cursors agree either way. */
  lemma TrackSurvives(m: InternalMsg, m0: InternalMsg, bm: Bitmap, env: Env, net: seq<byte>, rest: seq<byte>)
    requires |bm| == 8 && |net| == 8 && |m.track2| <= 79 && AllNibbles(m.track2)
    ensures var r := ReadField(35, m0, bm, env, Written(35, m, net) + rest);
            && r.Done? && r.n == |Written(35, m, net)|
            && (r.m.track2 == m.track2 <==> |m.track2| % 2 == 0)
  {
    hide Get, Shapes.Put;
    GetPut(VarBcd(79), Txt(m.track2), rest);
  }

  /** A PAN comes back as itself exactly when it has no leading zero; otherwise it loses them. */
  lemma PanSurvives(m: InternalMsg, m0: InternalMsg, bm: Bitmap, env: Env, net: seq<byte>, rest: seq<byte>)
    requires |bm| == 8 && |net| == 8 && |m.pan| <= 19 && AllNibbles(m.pan)
    ensures var r := ReadField(2, m0, bm, env, Written(2, m, net) + rest);
            && r.Done? && r.m.pan == StripLeadingZeros(m.pan)
            && (r.m.pan == m.pan <==> m.pan == [] || m.pan[0] != 0x30)
  {
    hide Get, Shapes.Put;
    StripKeepsNibbles(m.pan);
    GetPut(VarBcd(19), Txt(StripLeadingZeros(m.pan)), rest);
  }

  lemma {:induction false} StripKeepsNibbles(s: Text)
    requires AllNibbles(s)
    ensures AllNibbles(StripLeadingZeros(s)) && |StripLeadingZeros(s)| <= |s|
  {
    if s != [] && s[0] == 0x30 { StripKeepsNibbles(s[1..]); }
  }
}
