/** The link to the network: two-byte headers, fragments and short writes (sockhelp.c). */
module Link {
  import opened Memory

  const CONTROL: byte := 0x40
  const FRAGMENT: byte := 0x20
  const LAST: byte := 0

  /** What one call of write() does: a count of bytes, an interruption, or another error. */
  datatype Outcome = Wrote(n: nat) | Interrupted | Failed

  /** A connected socket: the bytes sent so far, the bytes not read yet, and what the next writes will do. */
  class Socket {
    var sent: seq<byte>
    var incoming: seq<byte>
    var schedule: seq<Outcome>

    constructor (incoming: seq<byte>, schedule: seq<Outcome>)
      ensures sent == [] && this.incoming == incoming && this.schedule == schedule
    {
      sent, this.incoming, this.schedule := [], incoming, schedule;
    }

    /** write(): follows the schedule, and takes everything once that is used up. */
    method Write(data: seq<byte>) returns (n: int, eintr: bool)
      modifies `sent, `schedule
      ensures n <= |data| && (n < 0 ==> sent == old(sent)) && (n >= 0 ==> sent == old(sent) + data[..n] && !eintr)
      ensures schedule == if old(schedule) == [] then [] else old(schedule)[1..]
      ensures n == Result(old(schedule), |data|) && (eintr <==> old(schedule) != [] && old(schedule)[0].Interrupted?)
    {
      var next := if schedule == [] then Wrote(|data|) else schedule[0];
      schedule := if schedule == [] then [] else schedule[1..];
      match next {
        case Wrote(k) =>
          n := if k < |data| then k else |data|;
          sent := sent + data[..n];
          eintr := false;
        case Interrupted => n, eintr := -1, true;
        case Failed => n, eintr := -1, false;
      }
    }

    /** read() of n bytes; the rest of the message is there, so it takes all of them or what is left. */
    method Read(n: nat) returns (data: seq<byte>)
      modifies `incoming
      ensures data == old(incoming)[..Available(old(incoming), n)]
      ensures incoming == old(incoming)[Available(old(incoming), n)..]
    {
      var k := Available(incoming, n);
      data := incoming[..k];
      incoming := incoming[k..];
    }
  }

  function Available(s: seq<byte>, n: nat): (k: nat)
    ensures k <= |s| && k <= n
  {
    if n < |s| then n else |s|
  }

  function Result(schedule: seq<Outcome>, len: nat): (n: int)
    ensures -1 <= n <= len
  {
    if schedule == [] then len
    else match schedule[0] case Wrote(k) => (if k < len then k else len) case Interrupted => -1 case Failed => -1
  }

  // ---- sending ----------------------------------------------------------------------------------

  /**
   * The header sendToNet writes. The high byte is shifted out of its char, so it is always zero; the low byte is
   * or-ed into a cell that was never set.
   */
  function SendHeader(count: nat, stale: byte): (h: seq<byte>)
    ensures |h| == 2 && h[0] == 0
  {
    OrByte(stale, count % 256);
    [0, Or(stale, count % 256)]
  }

  /** Every write is interrupted or takes at least one byte. */
  predicate Progress(schedule: seq<Outcome>)
  {
    forall k :: 0 <= k < |schedule| ==> schedule[k].Interrupted? || (schedule[k].Wrote? && schedule[k].n > 0)
  }

  /** The header is written in one piece: the code does not try again when it is not. */
  predicate HeaderWhole(schedule: seq<Outcome>) { Result(schedule, 2) == 2 }

  /** The inner loop: write again while the call is interrupted. */
  method WriteOnce(s: Socket, data: seq<byte>) returns (n: int)
    modifies s`sent, s`schedule
    ensures n <= |data| && s.sent == old(s.sent) + (if n >= 0 then data[..n] else [])
    ensures |s.schedule| <= |old(s.schedule)| && (Progress(old(s.schedule)) ==> Progress(s.schedule))
    ensures Progress(old(s.schedule)) && |data| > 0 ==> n > 0
  {
    var eintr;
    n, eintr := s.Write(data);
    while n < 0 && eintr
      modifies s`sent, s`schedule
      invariant n <= |data| && s.sent == old(s.sent) + (if n >= 0 then data[..n] else [])
      invariant |s.schedule| <= |old(s.schedule)| && (Progress(old(s.schedule)) ==> Progress(s.schedule))
      invariant Progress(old(s.schedule)) && |data| > 0 ==> n > 0 || eintr
      invariant n >= 0 ==> !eintr
      decreases |s.schedule|, n < 0 && eintr
    {
      n, eintr := s.Write(data);
    }
  }

  /** The one write of the header. */
  method WriteHeader(s: Socket, count: nat, stale: byte) returns (n: int)
    modifies s`sent, s`schedule
    ensures s.sent == old(s.sent) + HeaderSent(old(s.schedule), count, stale)
    ensures Progress(old(s.schedule)) ==> Progress(s.schedule)
  {
    var header := SendHeader(count, stale);
    var eintr;
    n, eintr := s.Write(header);
  }

  /**
   * sendToNet. What goes out is as much of the header as one write takes, then a prefix of the message; under a
   * schedule that makes progress it is the whole message.
   */
  method SendToNet(s: Socket, buf: seq<byte>, stale: byte) returns (r: int)
    modifies s`sent, s`schedule
    ensures exists k: nat :: k <= |buf| && (r >= 0 ==> r == k)
              && s.sent == old(s.sent) + HeaderSent(old(s.schedule), |buf|, stale) + buf[..k]
    ensures Progress(old(s.schedule)) && |buf| > 0 ==>
              r == |buf| && s.sent == old(s.sent) + HeaderSent(old(s.schedule), |buf|, stale) + buf
  {
    hide HeaderSent, Progress;
    var thisWrite := WriteHeader(s, |buf|, stale);
    ghost var start := old(s.sent) + HeaderSent(old(s.schedule), |buf|, stale);
    var bytesSent: nat := 0;
    assert buf[..0] == [];
    while bytesSent < |buf|
      modifies s`sent, s`schedule
      invariant bytesSent <= |buf| && s.sent == start + buf[..bytesSent]
      invariant Progress(old(s.schedule)) ==> Progress(s.schedule)
      invariant bytesSent > 0 ==> thisWrite > 0
    {
      thisWrite := WriteOnce(s, buf[bytesSent..]);
      if thisWrite <= 0 { break; }
      assert buf[..bytesSent] + buf[bytesSent..][..thisWrite] == buf[..bytesSent + thisWrite];
      bytesSent := bytesSent + thisWrite;
    }
    assert buf[..|buf|] == buf;
    r := if thisWrite < 0 then -1 else bytesSent;
  }

  /** What the one write of the header leaves on the stream. */
  function HeaderSent(schedule: seq<Outcome>, count: nat, stale: byte): seq<byte>
  {
    var n := Result(schedule, 2);
    if n < 0 then [] else SendHeader(count, stale)[..n]
  }

  /** The header goes out whole or the receiver loses its place; nothing else of the schedule matters to it. */
  lemma HeaderNeedsOneWrite(schedule: seq<Outcome>, count: nat, stale: byte)
    ensures HeaderSent(schedule, count, stale) == SendHeader(count, stale) <==> HeaderWhole(schedule)
  {
    var h := SendHeader(count, stale);
    assert h[..2] == h;
  }

  /** Every bit of a is a bit of b. */
  ghost predicate Within(a: nat, b: nat) { forall k: nat :: Bit(a, k) ==> Bit(b, k) }

  lemma OrAddsNothing(a: nat, b: nat)
    ensures Or(a, b) == b <==> Within(a, b)
  {
    hide Or, Bit;
    var r := Or(a, b);
    forall k: nat ensures Bit(r, k) == (Bit(a, k) || Bit(b, k)) { OrBits(a, b, k); }
    if Within(a, b) { SameBits(r, b); }
  }

  /** The header is the one meant exactly when every bit of the cell that was never set is a bit of the low byte. */
  lemma StaleHeader(count: nat, stale: byte)
    ensures SendHeader(count, stale) == [0, count % 256] <==> Within(stale, count % 256)
  {
    OrAddsNothing(stale, count % 256);
  }

  /** A message of one byte is announced as three when that cell holds a 2. */
  lemma StaleTwo()
    ensures SendHeader(1, 2) == [0, 3]
  {
    OrHalf(1, 1);
    OrZero(1);
    assert Or(2, 1) == 3;
  }

  // ---- receiving --------------------------------------------------------------------------------

  /**
   * The peer has sent whole fragments up to the closing one, none of 128 bytes or more: a longer length would be
   * taken for a negative one.
   */
  predicate Fragments(s: seq<byte>)
  {
    |s| >= 2 && s[1] < 128 && (s[0] == FRAGMENT || s[0] == LAST ==> |s| >= 2 + s[1] as int)
    && (s[0] == FRAGMENT ==> Fragments(s[2 + s[1] as int..]))
  }

  /** rcvFromNet can read a message, or a control block that fits its two cells. */
  predicate Framed(s: seq<byte>)
  {
    |s| >= 2 && s[1] < 128
    && (s[1] == 0 || (if s[0] == CONTROL then s[1] <= 2 && |s| >= 2 + s[1] as int else Fragments(s)))
  }

  /** The bytes of the fragments up to the closing one. */
  function Payload(s: seq<byte>): seq<byte>
    requires Fragments(s)
  {
    if s[0] == FRAGMENT then s[2..2 + s[1] as int] + Payload(s[2 + s[1] as int..])
    else if s[0] == LAST then s[2..2 + s[1] as int]
    else []
  }

  /** Where the stream stands behind them; a fragment of another kind is only looked at. */
  function Remainder(s: seq<byte>): (r: seq<byte>)
    requires Fragments(s)
    ensures |r| <= |s|
  {
    if s[0] == FRAGMENT then Remainder(s[2 + s[1] as int..])
    else if s[0] == LAST then s[2 + s[1] as int..]
    else s[2..]
  }

  /** The fragments end in a closing one. */
  predicate Closed(s: seq<byte>)
    requires Fragments(s)
  {
    if s[0] == FRAGMENT then Closed(s[2 + s[1] as int..]) else s[0] == LAST
  }

  /** What the first header tells about the rest. */
  lemma FirstFragment(s: seq<byte>)
    requires Fragments(s)
    ensures |s| >= 2 && (s[0] in {FRAGMENT, LAST} ==> |s| >= 2 + s[1] as int)
    ensures s[0] == FRAGMENT ==>
              var r := s[2 + s[1] as int..];
              && Fragments(r) && |r| >= 2
              && Payload(s) == s[2..2 + s[1] as int] + Payload(r) && Remainder(s) == Remainder(r)
              && Closed(s) == Closed(r)
    ensures s[0] == LAST ==>
              Payload(s) == s[2..2 + s[1] as int] && Remainder(s) == s[2 + s[1] as int..] && Closed(s)
    ensures s[0] !in {FRAGMENT, LAST} ==> Payload(s) == [] && Remainder(s) == s[2..] && !Closed(s)
  {}

  /** The fragments after their first header, `auxBuf`, was read. */
  method RcvFragments(s: Socket, buf: array<byte>, header: seq<byte>, ghost all: seq<byte>) returns (ret: int)
    requires Fragments(all) && header == all[..2] && s.incoming == all[2..] && |Payload(all)| <= buf.Length
    modifies s`incoming, buf
    ensures s.incoming == Remainder(all)
    ensures if Closed(all) then ret == |Payload(all)| && buf[..ret] == Payload(all) else ret == -1
  {
    hide Fragments, Payload, Remainder, Closed;
    var auxBuf, bytesRead := header, 0;
    ghost var left, got: seq<byte> := all, [];
    FirstFragment(left);
    while auxBuf[0] == FRAGMENT
      modifies s`incoming, buf
      invariant Fragments(left) && |left| >= 2 && auxBuf == left[..2] && s.incoming == left[2..]
      invariant Remainder(left) == Remainder(all) && Closed(left) == Closed(all)
      invariant 0 <= bytesRead && bytesRead + |Payload(left)| == |Payload(all)| <= buf.Length
      invariant buf[..bytesRead] == got && got + Payload(left) == Payload(all)
      decreases |left|
    {
      FirstFragment(left);
      ghost var piece := left[2..2 + auxBuf[1] as int];
      Assoc(got, piece, Payload(left[2 + auxBuf[1] as int..]));
      bytesRead, left := OneFragment(s, buf, bytesRead, auxBuf[1], left);
      got := got + piece;
      auxBuf := s.Read(2);
    }
    FirstFragment(left);
    ret := -1;
    if auxBuf[0] == LAST {
      bytesRead, left := OneFragment(s, buf, bytesRead, auxBuf[1], left);
      ret := bytesRead;
    }
  }

  /** rcvFromNet: the bytes of a message are put together in buf; -1 for everything else. */
  method RcvFromNet(s: Socket, buf: array<byte>) returns (ret: int)
    requires Framed(s.incoming)
    requires Fragments(s.incoming) ==> |Payload(s.incoming)| <= buf.Length
    modifies s`incoming, buf
    ensures old(s.incoming)[1] == 0 ==> ret == -1 && s.incoming == old(s.incoming)[2..]
    ensures old(s.incoming)[1] != 0 && old(s.incoming)[0] == 0x40 ==>
              ret == -1 && s.incoming == old(s.incoming)[2 + old(s.incoming)[1] as int..]
    ensures old(s.incoming)[1] != 0 && old(s.incoming)[0] != 0x40 ==>
              && s.incoming == Remainder(old(s.incoming))
              && if Closed(old(s.incoming))
                 then ret == |Payload(old(s.incoming))| && buf[..ret] == Payload(old(s.incoming))
                 else ret == -1
  {
    hide Fragments, Payload, Remainder, Closed;
    ghost var all := s.incoming;
    var auxBuf := s.Read(2);
    var tam: nat := auxBuf[1];
    if tam == 0 { return -1; }
    if auxBuf[0] == CONTROL {
      auxBuf := s.Read(tam);
      return -1;
    }
    ret := RcvFragments(s, buf, auxBuf, all);
  }

  /** The bytes of one fragment, put behind those read before. */
  method OneFragment(s: Socket, buf: array<byte>, bytesRead: nat, tam: nat, ghost left: seq<byte>)
    returns (read1: nat, ghost left1: seq<byte>)
    requires |left| >= 2 + tam && s.incoming == left[2..] && bytesRead + tam <= buf.Length
    modifies s`incoming, buf
    ensures left1 == left[2 + tam..] && s.incoming == left1
    ensures read1 == bytesRead + tam
    ensures buf[..read1] == old(buf[..bytesRead]) + left[2..2 + tam]
  {
    left1 := left[2 + tam..];
    var data := s.Read(tam);
    assert data == left[2..2 + tam];
    Copy(buf, bytesRead, data);
    read1 := bytesRead + |data|;
  }

  // ---- both ends --------------------------------------------------------------------------------

  /** A message cut up: every piece but the last under a fragment header. */
  function Cut(pieces: seq<seq<byte>>): seq<byte>
    requires pieces != [] && forall k :: 0 <= k < |pieces| ==> |pieces[k]| < 128
  {
    if |pieces| == 1 then [LAST, |pieces[0]|] + pieces[0]
    else [FRAGMENT, |pieces[0]|] + pieces[0] + Cut(pieces[1..])
  }

  function Join(pieces: seq<seq<byte>>): seq<byte>
  {
    if pieces == [] then [] else pieces[0] + Join(pieces[1..])
  }

  /** On the wire: a message is announced by 0 and its length, its earlier pieces by 32 and theirs. */
  lemma CutBytes(a: seq<byte>, b: seq<byte>)
    requires |a| < 128 && |b| < 128
    ensures Cut([a]) == [0, |a|] + a
    ensures Cut([a, b]) == [0x20, |a|] + a + [0, |b|] + b
  {
    assert [a, b][1..] == [b];
    Assoc([0x20, |a|] + a, [0, |b|], b);
  }

  /** A reader of s puts `message` together and leaves `more` on the stream. */
  predicate Reads(s: seq<byte>, message: seq<byte>, more: seq<byte>)
  {
    Fragments(s) && Closed(s) && Payload(s) == message && Remainder(s) == more
  }

  lemma LastPiece(piece: seq<byte>, more: seq<byte>)
    requires |piece| < 128
    ensures Reads([LAST, |piece|] + piece + more, piece, more)
  {
    var s := [LAST, |piece|] + piece + more;
    assert s[2..2 + |piece|] == piece && s[2 + |piece|..] == more;
  }

  lemma EarlierPiece(piece: seq<byte>, s: seq<byte>, message: seq<byte>, more: seq<byte>)
    requires |piece| < 128 && Reads(s, message, more)
    ensures Reads([FRAGMENT, |piece|] + piece + s, piece + message, more)
  {
    var t := [FRAGMENT, |piece|] + piece + s;
    assert t[2..2 + |piece|] == piece && t[2 + |piece|..] == s;
  }

  /** Reassembly gives the pieces joined, and stops at the next frame. */
  lemma {:induction false} Reassembled(pieces: seq<seq<byte>>, more: seq<byte>)
    requires pieces != [] && forall k :: 0 <= k < |pieces| ==> |pieces[k]| < 128
    ensures Reads(Cut(pieces) + more, Join(pieces), more)
  {
    hide Reads;
    if |pieces| == 1 {
      LastPiece(pieces[0], more);
      assert pieces[1..] == [] && pieces[0] + [] == pieces[0];
    } else {
      Reassembled(pieces[1..], more);
      EarlierPiece(pieces[0], Cut(pieces[1..]) + more, Join(pieces[1..]), more);
      assert Cut(pieces) + more == [FRAGMENT, |pieces[0]|] + pieces[0] + (Cut(pieces[1..]) + more);
    }
  }

  /** A fragmented message with a first piece that is not empty is what rcvFromNet can read. */
  lemma CutIsFramed(pieces: seq<seq<byte>>, more: seq<byte>)
    requires pieces != [] && pieces[0] != [] && forall k :: 0 <= k < |pieces| ==> |pieces[k]| < 128
    ensures Framed(Cut(pieces) + more) && (Cut(pieces) + more)[0] != CONTROL && (Cut(pieces) + more)[1] != 0
  {
    Reassembled(pieces, more);
  }

  lemma {:induction false} OrZeroLeft(b: nat)
    ensures Or(0, b) == b
  {
    if b > 0 { OrZeroLeft(b / 2); }
  }

  /** A length whose low byte is zero is taken for no message: the reader stops behind the header. */
  lemma ZeroLengthLost(buf: seq<byte>, more: seq<byte>)
    requires |buf| % 256 == 0
    ensures var s := SendHeader(|buf|, 0) + buf + more;
            Framed(s) && s[1] == 0 && s[2..] == buf + more && (buf != [] ==> !Reads(s, buf, more))
  {
    hide Fragments, Payload, Remainder, Closed;
    OrZeroLeft(0);
    var s := SendHeader(|buf|, 0) + buf + more;
    assert s == [LAST, 0] + [] + (buf + more);
    LastPiece([], buf + more);
  }

  /**
   * What one side sends the other receives: exactly, up to 127 bytes; of a longer message at most the bytes its
   * low length byte admits, the high byte being lost.
   */
  lemma SentIsReceived(buf: seq<byte>, more: seq<byte>)
    requires 0 < |buf| % 256 < 128
    ensures var s := SendHeader(|buf|, 0) + buf + more;
            && s[1] != 0 && s[0] != CONTROL
            && Reads(s, buf[..|buf| % 256], buf[|buf| % 256..] + more)
            && (Reads(s, buf, more) <==> |buf| < 128)
  {
    var n, s := |buf| % 256, SendHeader(|buf|, 0) + buf + more;
    OrZeroLeft(n);
    LastPiece(buf[..n], buf[n..] + more);
    assert s == [LAST, n] + buf[..n] + (buf[n..] + more);
    hide Fragments, Payload, Remainder, Closed;
    if |buf| < 128 {
      assert buf[..n] == buf && buf[n..] + more == more;
    } else {
      assert |buf[..n]| < |buf|;
    }
  }

  /** Every byte of a message was on the stream, and its closing header with it. */
  lemma {:induction false} PayloadFits(s: seq<byte>)
    requires Fragments(s) && Closed(s)
    ensures |Payload(s)| + 2 <= |s| - |Remainder(s)|
  {
    hide Payload, Remainder, Closed;
    FirstFragment(s);
    if s[0] == FRAGMENT { PayloadFits(s[2 + s[1] as int..]); }
  }

  /**
   * What sendToNet leaves on the stream reads as the message exactly when the header went out whole and the cell that
   * was never set added no bit to it.
   */
  lemma DeliveredExactly(schedule: seq<Outcome>, data: seq<byte>, stale: byte, more: seq<byte>)
    requires 0 < |data| < 128
    ensures Reads(HeaderSent(schedule, |data|, stale) + data + more, data, more)
            <==> HeaderWhole(schedule) && Within(stale, |data|)
  {
    hide Fragments, Payload, Remainder, Closed, Within, Or;
    var h := HeaderSent(schedule, |data|, stale);
    var s := h + data + more;
    HeaderNeedsOneWrite(schedule, |data|, stale);
    StaleHeader(|data|, stale);
    if HeaderWhole(schedule) && Within(stale, |data|) { Delivered(schedule, data, stale, more); }
    if Reads(s, data, more) {
      PayloadFits(s);
      assert h == SendHeader(|data|, stale);
      FirstFragment(s);
      assert s[0] == h[0] && s[1] == h[1];
    }
  }

  /** A header that is cut after one byte makes progress, and the message is lost. */
  lemma CutHeader(data: seq<byte>, more: seq<byte>)
    requires 0 < |data| < 128
    ensures Progress([Wrote(1)]) && !Reads(HeaderSent([Wrote(1)], |data|, 0) + data + more, data, more)
  {
    hide Reads, Within;
    DeliveredExactly([Wrote(1)], data, 0, more);
  }

  /** What sendToNet leaves on the stream of a short message, when nothing goes wrong with its header. */
  lemma Delivered(schedule: seq<Outcome>, data: seq<byte>, stale: byte, more: seq<byte>)
    requires 0 < |data| < 128 && HeaderWhole(schedule) && Within(stale, |data|)
    ensures var s := HeaderSent(schedule, |data|, stale) + data + more;
            Framed(s) && s[1] != 0 && s[0] != CONTROL && Reads(s, data, more)
  {
    hide Fragments, Payload, Remainder, Closed;
    HeaderNeedsOneWrite(schedule, |data|, stale);
    StaleHeader(|data|, stale);
    LastPiece(data, more);
  }

  /**
   * Both ends together, under a schedule of short and interrupted writes that makes progress: the message arrives as
   * it was sent, with the next frame next, exactly when the header went out in one piece and the cell that was never
   * set added no bit to it. The stream is one that the reader can read, as it is in that case (Delivered).
   */
  method SendAndReceive(a: Socket, b: Socket, data: seq<byte>, stale: byte, more: seq<byte>, buf: array<byte>)
    returns (ret: int)
    requires a != b && 0 < |data| < 128 && |data| <= buf.Length && Progress(a.schedule)
    requires var s := HeaderSent(a.schedule, |data|, stale) + data + more;
             Framed(s) && (Fragments(s) ==> |Payload(s)| <= buf.Length)
    modifies a, b, buf
    ensures 0 <= ret ==> ret <= buf.Length
    ensures (ret == |data| && buf[..ret] == data && b.incoming == more)
            <==> HeaderWhole(old(a.schedule)) && Within(stale, |data|)
  {
    hide Fragments, Payload, Remainder, Closed, HeaderSent, Progress, HeaderWhole, Within;
    var was := |a.sent|;
    ghost var schedule := a.schedule;
    ghost var s := HeaderSent(schedule, |data|, stale) + data + more;
    DeliveredExactly(schedule, data, stale, more);
    if HeaderWhole(schedule) && Within(stale, |data|) { Delivered(schedule, data, stale, more); }
    var r := SendToNet(a, data, stale);
    assert a.sent[was..] == HeaderSent(schedule, |data|, stale) + data;
    b.incoming := a.sent[was..] + more;
    assert b.incoming == s;
    ret := RcvFromNet(b, buf);
  }
}
