/**
  The block table follows from three things: the room in the symbol, the number of blocks and
  the parity bytes of a block. The last two are Table 9 of ISO/IEC 18004 for level M.
 */
module BlockTable {
  import opened Capacity
  import opened QrTables

  function Parity(v: int): nat
    requires IsVersion(v)
  {
    match v
    case 1 => 10
    case 2 | 6 => 16
    case 4 | 7 => 18
    case 8 | 9 | 12 | 13 => 22
    case 5 | 14 | 15 => 24
    case 3 | 10 | 18 | 19 | 20 | 21 => 26
    case 11 => 30
    case _ => 28
  }

  function Blocks(v: int): nat
    requires IsVersion(v)
  {
    match v
    case 1 | 2 | 3 => 1
    case 4 | 5 => 2
    case 6 | 7 | 8 => 4
    case 9 | 10 | 11 => 5
    case 12 => 8
    case 13 | 14 => 9
    case 15 | 16 => 10
    case 17 => 11
    case 18 => 13
    case 19 => 14
    case 20 => 16
    case 21 | 22 => 17
    case 23 => 18
    case 24 => 20
    case 25 => 21
    case 26 => 23
    case 27 => 25
    case 28 => 26
    case 29 => 28
    case 30 => 29
    case 31 => 31
    case 32 => 33
    case 33 => 35
    case 34 => 37
    case 35 => 38
    case 36 => 40
    case 37 => 43
    case 38 => 45
    case 39 => 47
    case _ => 49
  }

  /** One or two runs of blocks with the given parity, the second one codeword longer. */
  predicate Even(groups: seq<Group>, parity: nat) {
    && 1 <= |groups| <= 2 && groups[0].count > 0 && groups[0].total == groups[0].data + parity
    && (|groups| == 2 ==>
         groups[1].count > 0 && groups[1].data == groups[0].data + 1 && groups[1].total == groups[0].total + 1)
  }

  function Count(groups: seq<Group>): nat
    requires 1 <= |groups| <= 2
  {
    groups[0].count + if |groups| == 2 then groups[1].count else 0
  }

  function Codewords(groups: seq<Group>): nat
    requires 1 <= |groups| <= 2
  {
    groups[0].count * groups[0].total + if |groups| == 2 then groups[1].count * groups[1].total else 0
  }

  /** As many blocks as the standard says, as even as can be, that fill the room but for less than eight modules. */
  predicate Shares(groups: seq<Group>, v: int)
    requires IsVersion(v)
  {
    && Even(groups, Parity(v)) && Count(groups) == Blocks(v)
    && 8 * Codewords(groups) <= RawModules(v) < 8 * Codewords(groups) + 8
  }

  lemma Even20(v: int)
    requires 1 <= v <= 20
    ensures Even(RsBlocks(v), Parity(v)) && Count(RsBlocks(v)) == Blocks(v)
  {
  }

  lemma Even40(v: int)
    requires 21 <= v <= 40
    ensures Even(RsBlocks(v), Parity(v)) && Count(RsBlocks(v)) == Blocks(v)
  {
  }

  lemma TableShares(v: int)
    requires IsVersion(v)
    ensures Shares(RsBlocks(v), v)
  {
    if v <= 20 { Even20(v); } else { Even40(v); }
    RoomInAll(v);
    hide RsBlocks, RawModules, Parity, Blocks;
  }

  lemma Monotone(n: nat, a: nat, b: nat)
    requires a <= b
    ensures n * a <= n * b
  {
  }

  lemma OneMore(n: nat, t: nat)
    ensures n * (t + 1) == n * t + n
  {
  }

  lemma MoreEach(n: nat, t: nat, t': nat)
    ensures t < t' ==> n * t + n <= n * t'
  {
    if t < t' {
      OneMore(n, t);
      Monotone(n, t + 1, t');
    }
  }

  /** With n blocks of t or t + 1 codewords, b of them longer, t and b are the quotient and the rest. */
  lemma Shared(n: nat, t: nat, b: nat, t': nat, b': nat)
    requires b < n && b' < n && n * t + b == n * t' + b'
    ensures t == t' && b == b'
  {
    MoreEach(n, t, t');
    MoreEach(n, t', t);
  }

  function Longer(groups: seq<Group>): nat { if |groups| == 2 then groups[1].count else 0 }

  lemma CodewordsAre(groups: seq<Group>, parity: nat)
    requires Even(groups, parity)
    ensures Longer(groups) < Count(groups)
    ensures Codewords(groups) == Count(groups) * groups[0].total + Longer(groups)
  {
    if |groups| == 2 {
      var a, b, t := groups[0].count, groups[1].count, groups[0].total;
      assert b * (t + 1) == b * t + b && (a + b) * t == a * t + b * t;
    }
  }

  lemma SameGroups(groups: seq<Group>, others: seq<Group>, parity: nat)
    requires Even(groups, parity) && Even(others, parity) && Count(groups) == Count(others)
    requires groups[0].total == others[0].total && Longer(groups) == Longer(others)
    ensures groups == others
  {
    assert groups[0] == others[0];
    if |groups| == 2 { assert groups[1] == others[1]; }
  }

  /** The table of every version is the one way to share the room in its symbol out among its blocks. */
  lemma TableDetermined(v: int, groups: seq<Group>)
    requires IsVersion(v)
    ensures Shares(groups, v) <==> groups == RsBlocks(v)
  {
    TableShares(v);
    var table := RsBlocks(v);
    hide RsBlocks, RawModules, Parity, Blocks, Codewords, Even;
    if Shares(groups, v) {
      CodewordsAre(groups, Parity(v));
      CodewordsAre(table, Parity(v));
      Shared(Blocks(v), groups[0].total, Longer(groups), table[0].total, Longer(table));
      SameGroups(groups, table, Parity(v));
    }
  }
}
