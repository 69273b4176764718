/** The response codes and processing codes on their way in and out (v_in.c, v_out.c). */
module Codes {
  import opened Message
  import opened Layout
  import opened Wire

  /** extern_externrespcode: the code of the switch on its way to the network. */
  function OutCode(respcode: int): int
  {
    if respcode == 0 then 0
    else if respcode == 2 then 1
    else if respcode == 3 then 3
    else if respcode == 12 then 12
    else if respcode in {8, 19, 30, 63, 77, 78, 87, 88, 91, 92, 93, 94} then 19
    else if respcode == 14 then 14
    else if respcode == 41 then 41
    else if respcode == 42 then 7
    else if respcode == 4 then 43
    else if respcode == 51 then 51
    else if respcode == 54 then 54
    else if respcode == 55 then 55
    else if respcode == 61 then 62
    else if respcode == 82 then 82
    else if respcode == 67 then 4
    else if respcode == 75 then 75
    else if respcode == 52 then 52
    else if respcode == 96 then 96
    else if respcode in {9, 10, 98} then 21
    else if respcode == 57 then 57
    else 5
  }

  /** extern_cardcorespcode: the code of the network on its way into the switch. */
  function InCode(resp: int): int
  {
    if resp in {0, 11} then 0
    else if resp in {1, 2} then 2
    else if resp == 3 then 3
    else if resp in {4, 7, 43} then 4
    else if resp == 5 then 5
    else if resp in {6, 21, 76, 77, 83, 85} then 6
    else if resp in {12, 57} then 12
    else if resp == 13 then 13
    else if resp == 14 then 14
    else if resp == 15 then 92
    else if resp == 19 then 19
    else if resp == 41 then 41
    else if resp == 51 then 51
    else if resp in {52, 53} then 52
    else if resp == 54 then 54
    else if resp in {55, 86} then 55
    else if resp == 61 then 60
    else if resp == 62 then 61
    else if resp == 63 then 63
    else if resp == 75 then 75
    else if resp == 80 then 80
    else if resp == 82 then 82
    else if resp == 91 then 91
    else if resp == 96 then 96
    else 6
  }

  /** The map out always gives two digits, and an approval is neither made nor lost by it. */
  lemma OutCodeLaws(respcode: int)
    ensures 0 <= OutCode(respcode) <= 99
    ensures OutCode(respcode) == 0 <==> respcode == 0
  {}

  /** Mapping in what was mapped out neither creates nor loses an approval; 11 also comes in as one. */
  lemma InOutApproval(respcode: int)
    ensures InCode(OutCode(respcode)) == 0 <==> respcode == 0
    ensures InCode(respcode) == 0 <==> respcode in {0, 11}
  {}

  /** A code that went out and in once stays what it is on every further round. */
  lemma InOutSettles(respcode: int)
    ensures OutCode(InCode(OutCode(InCode(OutCode(respcode))))) == OutCode(InCode(OutCode(respcode)))
  {}

  /** What every code goes out as, code by code. */
  lemma OutCodeTable(c: int)
    ensures OutCode(c) == 0 <==> c == 0
    ensures OutCode(c) == 1 <==> c == 2
    ensures OutCode(c) == 3 <==> c == 3
    ensures OutCode(c) == 4 <==> c == 67
    ensures OutCode(c) == 7 <==> c == 42
    ensures OutCode(c) == 12 <==> c == 12
    ensures OutCode(c) == 14 <==> c == 14
    ensures OutCode(c) == 19 <==> c in {8, 19, 30, 63, 77, 78, 87, 88, 91, 92, 93, 94}
    ensures OutCode(c) == 21 <==> c in {9, 10, 98}
    ensures OutCode(c) == 41 <==> c == 41
    ensures OutCode(c) == 43 <==> c == 4
    ensures OutCode(c) == 51 <==> c == 51
    ensures OutCode(c) == 52 <==> c == 52
    ensures OutCode(c) == 54 <==> c == 54
    ensures OutCode(c) == 55 <==> c == 55
    ensures OutCode(c) == 57 <==> c == 57
    ensures OutCode(c) == 62 <==> c == 61
    ensures OutCode(c) == 75 <==> c == 75
    ensures OutCode(c) == 82 <==> c == 82
    ensures OutCode(c) == 96 <==> c == 96
    ensures OutCode(c) in {0, 1, 3, 4, 5, 7, 12, 14, 19, 21, 41, 43, 51, 52, 54, 55, 57, 62, 75, 82, 96}
  {}

  /** What every code comes in as. */
  lemma InCodeTable(c: int)
    ensures InCode(c) == 0 <==> c in {0, 11}
    ensures InCode(c) == 2 <==> c in {1, 2}
    ensures InCode(c) == 3 <==> c == 3
    ensures InCode(c) == 4 <==> c in {4, 7, 43}
    ensures InCode(c) == 5 <==> c == 5
    ensures InCode(c) == 12 <==> c in {12, 57}
    ensures InCode(c) == 13 <==> c == 13
    ensures InCode(c) == 14 <==> c == 14
    ensures InCode(c) == 19 <==> c == 19
    ensures InCode(c) == 41 <==> c == 41
    ensures InCode(c) == 51 <==> c == 51
    ensures InCode(c) == 52 <==> c in {52, 53}
    ensures InCode(c) == 54 <==> c == 54
    ensures InCode(c) == 55 <==> c in {55, 86}
    ensures InCode(c) == 60 <==> c == 61
    ensures InCode(c) == 61 <==> c == 62
    ensures InCode(c) == 63 <==> c == 63
    ensures InCode(c) == 75 <==> c == 75
    ensures InCode(c) == 80 <==> c == 80
    ensures InCode(c) == 82 <==> c == 82
    ensures InCode(c) == 91 <==> c == 91
    ensures InCode(c) == 92 <==> c == 15
    ensures InCode(c) == 96 <==> c == 96
    ensures InCode(c) in {0, 2, 3, 4, 5, 6, 12, 13, 14, 19, 41, 51, 52, 54, 55, 60, 61, 63, 75, 80, 82, 91, 92, 96}
  {}

  /** The codes that survive the way out and in again. */
  lemma OutInSurvives(c: int)
    ensures InCode(OutCode(c)) == c <==> c in {0, 2, 3, 4, 5, 12, 14, 19, 41, 51, 52, 54, 55, 61, 75, 82, 96}
  {}

  /** extern_make_externpcode; its account map is the identity. */
  function ExternPcode(pcode: int): int
  {
    var txn := Quot(pcode, 10_000);
    var out := if txn == 4 then 3 else if txn == 9 then 0 else if txn == 17 then 1 else txn;
    out * 10_000 + Rem(Quot(pcode, 100), 100) * 100 + Rem(pcode, 100)
  }

  /** The processing code goes out as it is, but for the three kinds that have no code of their own there. */
  lemma PcodeKept(pcode: int)
    requires pcode >= 0
    ensures ExternPcode(pcode) == pcode <==> pcode / 10_000 !in {4, 9, 17}
  {
    assert pcode == pcode / 10_000 * 10_000 + pcode / 100 % 100 * 100 + pcode % 100;
  }

  /** A kind and its two accounts go out as themselves, but 4 as 3, 9 as 0 and 17 as 1. */
  lemma KindOut(kind: nat, from: nat, to: nat)
    requires from < 100 && to < 100
    ensures ExternPcode(10_000 * kind + 100 * from + to)
            == (if kind == 4 then 30_000 else if kind == 9 then 0 else if kind == 17 then 10_000 else 10_000 * kind)
               + 100 * from + to
  {
    var p := 10_000 * kind + 100 * from + to;
    assert p / 10_000 == kind && p / 100 == 100 * kind + from;
    assert p / 100 % 100 == from && p % 100 == to;
  }

  /** Every code the inbound side accepts goes out as it came in. */
  lemma AcceptedPcodeKept(pcode: int)
    requires pcode >= 0 && AcceptedPcode(pcode)
    ensures ExternPcode(pcode) == pcode
  {
    PcodeKept(pcode);
  }
}
