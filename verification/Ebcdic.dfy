/** ASCII to EBCDIC and back (v_misc.c, atoe and etoa). */
module Ebcdic {
  import opened Memory

  /** ebcdic_tab, range by range; its unlisted entries are zero. */
  function AtoeByte(c: byte): byte
  {
    if c == 0x20 then 0x40
    else if c == 0x21 then 0x5a
    else if c == 0x22 then 0x7f
    else if c == 0x23 then 0x7b
    else if c == 0x24 then 0x5b
    else if c == 0x25 then 0x6c
    else if c == 0x26 then 0x50
    else if c == 0x27 then 0x7d
    else if c == 0x28 then 0x4d
    else if c == 0x29 then 0x5d
    else if c == 0x2a then 0x5c
    else if c == 0x2b then 0x4e
    else if c == 0x2c then 0x6b
    else if c == 0x2d then 0x60
    else if c == 0x2e then 0x4b
    else if c == 0x2f then 0x61
    else if 0x30 <= c <= 0x39 then c - 0x30 + 0xf0
    else if c == 0x3a then 0x7a
    else if c == 0x3b then 0x5e
    else if c == 0x3c then 0x4c
    else if c == 0x3d then 0x7e
    else if 0x3e <= c <= 0x3f then c - 0x3e + 0x6e
    else if c == 0x40 then 0x7c
    else if 0x41 <= c <= 0x49 then c - 0x41 + 0xc1
    else if 0x4a <= c <= 0x52 then c - 0x4a + 0xd1
    else if 0x53 <= c <= 0x5a then c - 0x53 + 0xe2
    else if c == 0x5b then 0x4a
    else if c == 0x5c then 0xe0
    else if c == 0x5d then 0x5a
    else if c == 0x5e then 0x5f
    else if c == 0x5f then 0x6d
    else if c == 0x60 then 0x79
    else if 0x61 <= c <= 0x69 then c - 0x61 + 0x81
    else if 0x6a <= c <= 0x72 then c - 0x6a + 0x91
    else if 0x73 <= c <= 0x7a then c - 0x73 + 0xa2
    else if c == 0x7b then 0xc0
    else if c == 0x7c then 0x6a
    else if c == 0x7d then 0xd0
    else if c == 0x7e then 0xa1
    else 0
  }

  /** asciitab, range by range; its unlisted entries are zero. */
  function EtoaByte(c: byte): byte
  {
    if c == 0x05 then 0x09
    else if 0x0c <= c <= 0x0d then c - 0x0c + 0x0c
    else if 0x11 <= c <= 0x13 then c - 0x11 + 0x11
    else if c == 0x15 then 0x0a
    else if c == 0x19 then 0x19
    else if 0x1c <= c <= 0x1e then c - 0x1c + 0x1c
    else if c == 0x3c then 0x14
    else if c == 0x40 then 0x20
    else if c == 0x4a then 0x63
    else if c == 0x4b then 0x2e
    else if c == 0x4c then 0x3c
    else if c == 0x4d then 0x28
    else if c == 0x4e then 0x2b
    else if c == 0x4f then 0x7c
    else if c == 0x50 then 0x26
    else if c == 0x5a then 0x21
    else if c == 0x5b then 0x24
    else if c == 0x5c then 0x2a
    else if c == 0x5d then 0x29
    else if c == 0x5e then 0x3b
    else if c == 0x5f then 0x5e
    else if c == 0x60 then 0x2d
    else if c == 0x61 then 0x2f
    else if c == 0x6a then 0x7c
    else if c == 0x6b then 0x2c
    else if c == 0x6c then 0x25
    else if c == 0x6d then 0x5f
    else if 0x6e <= c <= 0x6f then c - 0x6e + 0x3e
    else if c == 0x79 then 0x60
    else if c == 0x7a then 0x3a
    else if c == 0x7b then 0x23
    else if c == 0x7c then 0x40
    else if c == 0x7d then 0x27
    else if c == 0x7e then 0x3d
    else if c == 0x7f then 0x22
    else if 0x81 <= c <= 0x89 then c - 0x81 + 0x61
    else if 0x91 <= c <= 0x99 then c - 0x91 + 0x6a
    else if c == 0xa1 then 0x7e
    else if 0xa2 <= c <= 0xa9 then c - 0xa2 + 0x73
    else if c == 0xad then 0x5b
    else if c == 0xbd then 0x5d
    else if c == 0xbf then 0x5f
    else if c == 0xc0 then 0x7b
    else if 0xc1 <= c <= 0xc9 then c - 0xc1 + 0x41
    else if c == 0xd0 then 0x7d
    else if 0xd1 <= c <= 0xd9 then c - 0xd1 + 0x4a
    else if c == 0xe0 then 0x5c
    else if 0xe2 <= c <= 0xe9 then c - 0xe2 + 0x53
    else if 0xf0 <= c <= 0xf9 then c - 0xf0 + 0x30
    else 0
  }

  function AtoeText(s: Text): (r: seq<byte>)
    ensures |r| == |s|
  {
    seq(|s|, i requires 0 <= i < |s| => AtoeByte(s[i]))
  }

  function EtoaText(s: seq<byte>): (r: Text)
    ensures |r| == |s|
  {
    seq(|s|, i requires 0 <= i < |s| => EtoaByte(s[i]))
  }

  /** DLE and SYNC divert the etoa loop, which then leaves cells of its buffer unwritten. */
  predicate Diverts(b: byte) { b == 0x10 || b == 0x32 }

  predicate Plain(s: seq<byte>) { forall i :: 0 <= i < |s| ==> !Diverts(s[i]) }

  /** NUL and the printable characters other than the square brackets. */
  predicate Restorable(c: byte) { c == 0 || (0x20 <= c <= 0x7E && c != 0x5B && c != 0x5D) }

  predicate AllRestorable(s: Text) { forall i :: 0 <= i < |s| ==> Restorable(s[i]) }

  /** The code points that etoa and atoe carry there and back. */
  predicate Canonical(s: seq<byte>) { forall i :: 0 <= i < |s| ==> !Diverts(s[i]) && AtoeByte(EtoaByte(s[i])) == s[i] }

  lemma EncodedByte(c: byte)
    ensures !Diverts(AtoeByte(c))
    ensures EtoaByte(AtoeByte(c)) == c <==> Restorable(c)
  {}

  /** Digits and letters in EBCDIC; nothing that is not printable goes out. */
  lemma AtoeLetters(c: byte)
    ensures 0x30 <= c <= 0x39 ==> AtoeByte(c) == 0xF0 + (c - 0x30)
    ensures 0x41 <= c <= 0x49 ==> AtoeByte(c) == 0xC1 + (c - 0x41)
    ensures 0x4A <= c <= 0x52 ==> AtoeByte(c) == 0xD1 + (c - 0x4A)
    ensures 0x53 <= c <= 0x5A ==> AtoeByte(c) == 0xE2 + (c - 0x53)
    ensures 0x61 <= c <= 0x69 ==> AtoeByte(c) == 0x81 + (c - 0x61)
    ensures 0x6A <= c <= 0x72 ==> AtoeByte(c) == 0x91 + (c - 0x6A)
    ensures 0x73 <= c <= 0x7A ==> AtoeByte(c) == 0xA2 + (c - 0x73)
    ensures c < 0x20 || c > 0x7E ==> AtoeByte(c) == 0
  {}

  /** The other printable characters. */
  lemma AtoeMarks()
    ensures AtoeByte(0x20) == 0x40 && AtoeByte(0x21) == 0x5A && AtoeByte(0x22) == 0x7F
    ensures AtoeByte(0x23) == 0x7B && AtoeByte(0x24) == 0x5B && AtoeByte(0x25) == 0x6C
    ensures AtoeByte(0x26) == 0x50 && AtoeByte(0x27) == 0x7D && AtoeByte(0x28) == 0x4D
    ensures AtoeByte(0x29) == 0x5D && AtoeByte(0x2A) == 0x5C && AtoeByte(0x2B) == 0x4E
    ensures AtoeByte(0x2C) == 0x6B && AtoeByte(0x2D) == 0x60 && AtoeByte(0x2E) == 0x4B
    ensures AtoeByte(0x2F) == 0x61 && AtoeByte(0x3A) == 0x7A && AtoeByte(0x3B) == 0x5E
    ensures AtoeByte(0x3C) == 0x4C && AtoeByte(0x3D) == 0x7E && AtoeByte(0x3E) == 0x6E
    ensures AtoeByte(0x3F) == 0x6F && AtoeByte(0x40) == 0x7C && AtoeByte(0x5B) == 0x4A
    ensures AtoeByte(0x5C) == 0xE0 && AtoeByte(0x5D) == 0x5A && AtoeByte(0x5E) == 0x5F
    ensures AtoeByte(0x5F) == 0x6D && AtoeByte(0x60) == 0x79 && AtoeByte(0x7B) == 0xC0
    ensures AtoeByte(0x7C) == 0x6A && AtoeByte(0x7D) == 0xD0 && AtoeByte(0x7E) == 0xA1
  {}

  /** The codes that asciitab gives a character which goes out as another code, or as none. */
  lemma EtoaOneWay(b: byte)
    ensures EtoaByte(b) != 0 ==>
              || AtoeByte(EtoaByte(b)) == b
              || b in {0x05, 0x0C, 0x0D, 0x11, 0x12, 0x13, 0x15, 0x19, 0x1C, 0x1D, 0x1E, 0x3C, 0x4A, 0x4F, 0xAD, 0xBD,
                       0xBF}
    ensures b in {0x0C, 0x0D, 0x11, 0x12, 0x13, 0x19, 0x1C, 0x1D, 0x1E} ==> EtoaByte(b) == b
    ensures EtoaByte(0x05) == 0x09 && EtoaByte(0x15) == 0x0A && EtoaByte(0x3C) == 0x14
    ensures EtoaByte(0x4A) == 0x63 && EtoaByte(0x4F) == 0x7C && EtoaByte(0xAD) == 0x5B && EtoaByte(0xBD) == 0x5D
    ensures EtoaByte(0xBF) == 0x5F
  {}

  /** A string comes back from EBCDIC unchanged exactly when every character is restorable. */
  lemma EtoaAtoe(s: Text)
    ensures Plain(AtoeText(s))
    ensures EtoaText(AtoeText(s)) == s <==> AllRestorable(s)
  {
    forall i | 0 <= i < |s|
      ensures !Diverts(AtoeText(s)[i]) && (EtoaText(AtoeText(s))[i] == s[i] <==> Restorable(s[i]))
    {
      EncodedByte(s[i]);
    }
    if AllRestorable(s) {
      assert forall i :: 0 <= i < |s| ==> EtoaText(AtoeText(s))[i] == s[i];
    } else {
      var i :| 0 <= i < |s| && !Restorable(s[i]);
      assert EtoaText(AtoeText(s))[i] != s[i];
    }
  }

  lemma AtoeEtoa(b: seq<byte>)
    requires Canonical(b)
    ensures Plain(b) && AtoeText(EtoaText(b)) == b
  {
    assert forall i :: 0 <= i < |b| ==> AtoeText(EtoaText(b))[i] == b[i];
  }

  lemma CanonicalText(s: Text)
    requires AllRestorable(s)
    ensures Canonical(AtoeText(s))
  {
    forall i | 0 <= i < |s| ensures AtoeByte(EtoaByte(AtoeText(s)[i])) == AtoeText(s)[i] && !Diverts(AtoeText(s)[i]) {
      EncodedByte(s[i]);
    }
  }

  /** Canonical bytes are exactly the encodings of text that comes back. */
  lemma CanonicalExactly(b: seq<byte>)
    ensures Canonical(b) <==> Plain(b) && AllRestorable(EtoaText(b)) && AtoeText(EtoaText(b)) == b
  {
    hide AtoeByte, EtoaByte;
    if Canonical(b) {
      AtoeEtoa(b);
      EtoaAtoe(EtoaText(b));
    }
    if AllRestorable(EtoaText(b)) && AtoeText(EtoaText(b)) == b { CanonicalText(EtoaText(b)); }
  }

  /** atoe: converts tamanho cells in place, through a second buffer. */
  method Atoe(destino: array<byte>, at: nat, tamanho: nat)
    requires at + tamanho <= destino.Length
    modifies destino
    ensures destino[..] == Overwrite(old(destino[..]), at, AtoeText(old(destino[at..at + tamanho])))
  {
    ghost var was := destino[at..at + tamanho];
    var buf := new byte[tamanho];
    var index, left := 0, tamanho;
    while left > 0
      modifies buf
      invariant 0 <= left && index + left == tamanho
      invariant forall i :: 0 <= i < index ==> buf[i] == AtoeByte(was[i])
    {
      assert destino[at + index] == was[index];
      buf[index] := AtoeByte(destino[at + index]);
      index, left := index + 1, left - 1;
    }
    assert buf[..] == AtoeText(was);
    Copy(destino, at, buf[..]);
  }

  /**
   * etoa: converts tamanho cells in place, through a second buffer. Stops with ok == false, the cells
   * untouched, at the first byte that would divert the loop.
   */
  method Etoa(origem: array<byte>, at: nat, tamanho: nat) returns (ok: bool)
    requires at + tamanho <= origem.Length
    modifies origem
    ensures ok == Plain(old(origem[at..at + tamanho]))
    ensures ok ==> origem[..] == Overwrite(old(origem[..]), at, EtoaText(old(origem[at..at + tamanho])))
    ensures !ok ==> origem[..] == old(origem[..])
  {
    hide EtoaByte, Diverts, Overwrite;
    ghost var was := origem[at..at + tamanho];
    var buf := new byte[tamanho];
    var auxind, left := 0, tamanho;
    while left > 0
      modifies buf
      invariant 0 <= left && auxind + left == tamanho
      invariant forall i :: 0 <= i < auxind ==> !Diverts(was[i]) && buf[i] == EtoaByte(was[i])
    {
      var psibyte := origem[at + auxind];
      assert psibyte == was[auxind];
      if Diverts(psibyte) {
        assert Diverts(was[auxind]);
        return false;
      }
      buf[auxind] := EtoaByte(psibyte);
      left, auxind := left - 1, auxind + 1;
    }
    assert buf[..] == EtoaText(was) && origem[..] == old(origem[..]);
    Copy(origem, at, buf[..]);
    ok := true;
  }
}
