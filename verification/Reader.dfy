/**
 * Where a reader who follows the map of a message looks for its fields: the cursor of externToCardCo (v_tocardco.c)
 * without what it stores, so that it is known for messages the decoder rejects or misreads, too.
 */
module Reader {
  import opened Memory
  import opened Digits
  import opened Ebcdic
  import opened Zoned
  import opened Bitmaps
  import opened Message
  import opened Shapes
  import opened Layout
  import opened Wire
  import opened Codec

  /** The bytes the cursor moves over for a carried field, with b ahead of it. */
  function ShapeSteps(sh: Shape, b: seq<byte>): nat
  {
    match sh
    case Number(len) => (len + 1) / 2
    case Stamp => 5
    case Amount => 6
    case VarBcd(_) => 1 + (CharAt(b, 0) as int + 1) / 2
    case Text8(len) => len
    case VarText(_) => 1 + CharAt(b, 0) as int
    case Raw => 1
    case Hex => 8
    case Tagged => 2
  }

  /** The same for a field that carries no value. */
  function PassiveSteps(f: nat, b: seq<byte>): nat
    requires 1 <= f <= 64 && !Carried(f)
  {
    match f
    case 1 => 8
    case 5 => 6
    case 6 => 6
    case 9 => 4
    case 10 => 4
    case 20 => 2
    case 21 => 2
    case 28 => 9
    case 34 => 1 + CharAt(b, 0) as int
    case 39 => 2
    case 40 => 3
    case 44 => 1 + CharAt(b, 0) as int
    case 48 => 1 + CharAt(b, 0) as int
    case 53 => 8
    case 54 => if CharAt(b, 0) > 21 then 43 else 22
    case 61 => 7 + (if CharAt(b, 0) > 12 then (CharAt(b, 0) as int - 12) / 2 else 0)
    case 62 => 9
    case 63 => 4 + NetworkLength(NetMapOf(CharAt(b, 1)))
    case _ => 0
  }

  function Steps(f: nat, b: seq<byte>): nat
    requires 1 <= f <= 64
  {
    if Carried(f) then ShapeSteps(ShapeOf(f), b) else PassiveSteps(f, b)
  }

  lemma GetSteps(sh: Shape, b: seq<byte>)
    ensures Get(sh, b).Got? ==> Get(sh, b).n == ShapeSteps(sh, b)
  {
    hide Unpack, EtoaText, Plain, Btoi, Atoi;
  }

  lemma PassiveTakes(f: nat, m: InternalMsg, env: Env, b: seq<byte>)
    requires 1 <= f <= 64 && !Carried(f)
    ensures ReadPassive(f, m, env, b).Done? ==> ReadPassive(f, m, env, b).n == PassiveSteps(f, b)
  {
    hide MoneyIn, EtoaText, Plain, CodesOf, NetMapOf, NetworkLength, ReadNetwork, BalancesOf;
  }

  /** Where the decoder reads a field, it takes those bytes. */
  lemma ReadSteps(f: nat, m: InternalMsg, bm: Bitmap, env: Env, b: seq<byte>)
    requires 1 <= f <= 64 && |bm| == 8
    ensures ReadField(f, m, bm, env, b).Done? ==> ReadField(f, m, bm, env, b).n == Steps(f, b)
  {
    hide Get, Store, ReadPassive, ShapeSteps, PassiveSteps;
    if Carried(f) { GetSteps(ShapeOf(f), b); } else { PassiveTakes(f, m, env, b); }
  }

  function Ahead(b: seq<byte>, n: nat): seq<byte> { if n <= |b| then b[n..] else [] }

  /** What lies ahead of the cursor where it comes to field g, from field f on. */
  function LookAt(g: nat, f: nat, bm: Bitmap, b: seq<byte>): seq<byte>
    requires 1 <= f <= g <= 65 && |bm| == 8
    decreases g - f, |bm|
  {
    if f == g then b
    else if IsSet(bm, f) then LookAt(g, f + 1, bm, Ahead(b, Steps(f, b)))
    else LookAt(g, f + 1, bm, b)
  }

  /** The reader's step over what the encoder wrote for field f is as long as that. */
  predicate StepFits(f: nat, m: InternalMsg)
    requires 1 <= f <= 64
  {
    if Carried(f) then (ShapeOf(f).VarBcd? || ShapeOf(f).VarText? ==> |WireValue(f, m).text| < 256)
    else f != 44 && Aligned(f, m)
  }

  lemma PutSteps(sh: Shape, c: FieldValue, rest: seq<byte>)
    requires sh.VarBcd? || sh.VarText? ==> |c.text| < 256
    ensures ShapeSteps(sh, Put(sh, c) + rest) == |Put(sh, c)|
  {
    hide NumBytes, Pack, AtoeText, LeftPack, ToBinary;
    if sh.VarBcd? || sh.VarText? { assert (Put(sh, c) + rest)[0] == |c.text|; }
  }

  lemma WrittenSteps(f: nat, m: InternalMsg, net: seq<byte>, rest: seq<byte>)
    requires 1 <= f <= 64 && f != 44 && |net| == 8 && StepFits(f, m)
    ensures Steps(f, Written(f, m, net) + rest) == |Written(f, m, net)|
  {
    hide Put, ShapeSteps, PassiveSteps, ReadPassive, WireValue;
    if Carried(f) {
      PutSteps(ShapeOf(f), WireValue(f, m), rest);
    } else {
      PassiveAligned(f, m, m, Env(0, 0), net, rest);
      PassiveTakes(f, m, Env(0, 0), Written(f, m, net) + rest);
    }
  }

  /** As long as every step fits, the reader stands where the encoder stood. */
  lemma {:induction false} LooksThere(g: nat, f: nat, bm: Bitmap, m: InternalMsg, net: seq<byte>, rest: seq<byte>)
    requires 1 <= f <= g <= 65 && |bm| == 8 && |net| == 8 && !IsSet(bm, 44)
    requires forall h :: f <= h < g && IsSet(bm, h) ==> StepFits(h, m)
    ensures LookAt(g, f, bm, Encoded(f, bm, m, net) + rest) == Encoded(g, bm, m, net) + rest
    decreases g - f
  {
    hide Written, Steps, StepFits, IsSet;
    if f < g {
      var tail := Encoded(f + 1, bm, m, net) + rest;
      if IsSet(bm, f) {
        EncodedTurn(f, bm, m, net, rest);
        WrittenSteps(f, m, net, tail);
        assert Ahead(Written(f, m, net) + tail, |Written(f, m, net)|) == tail;
      }
      LooksThere(g, f + 1, bm, m, net, rest);
    }
  }

  /** From field g the reader goes on from wherever it stands there. */
  lemma {:induction false} LooksOn(h: nat, g: nat, f: nat, bm: Bitmap, b: seq<byte>)
    requires 1 <= f <= g <= h <= 65 && |bm| == 8
    ensures LookAt(h, f, bm, b) == LookAt(h, g, bm, LookAt(g, f, bm, b))
    decreases g - f
  {
    hide Steps, IsSet;
    if f < g { LooksOn(h, g, f + 1, bm, if IsSet(bm, f) then Ahead(b, Steps(f, b)) else b); }
  }

  /** The decoder, where it comes through, reads every field where the reader looks for it. */
  lemma {:induction false} DecodedLooks(f: nat, bm: Bitmap, m: InternalMsg, env: Env, b: seq<byte>)
    requires 1 <= f <= 65 && |bm| == 8 && Decoded(f, bm, m, env, b).Done?
    ensures var n := Decoded(f, bm, m, env, b).n; n <= |b| && LookAt(65, f, bm, b) == b[n..]
    decreases 65 - f
  {
    hide ReadField, Steps, IsSet;
    if f < 65 {
      if IsSet(bm, f) {
        ReadSteps(f, m, bm, env, b);
        var r := ReadField(f, m, bm, env, b);
        DecodedLooks(f + 1, bm, Noted(r.m, bm), env, b[r.n..]);
        var d := Decoded(f + 1, bm, Noted(r.m, bm), env, b[r.n..]);
        assert b[r.n..][d.n..] == b[r.n + d.n..];
      } else {
        DecodedLooks(f + 1, bm, m, env, b);
      }
    }
  }
}
