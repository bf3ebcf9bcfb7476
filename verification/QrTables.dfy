/** The two tables of the encoder: Reed-Solomon blocks and alignment centres per version. */
module QrTables {

  /** A run of equal blocks: how many, total codewords each, data codewords each. */
  datatype Group = Group(count: nat, total: nat, data: nat)

  predicate IsVersion(v: int) { 1 <= v <= 40 }

  /** Reed-Solomon blocks at level M. */
  function RsBlocks(v: int): seq<Group>
    requires IsVersion(v)
  {
    match v
    case 1 => [Group(1, 26, 16)]
    case 2 => [Group(1, 44, 28)]
    case 3 => [Group(1, 70, 44)]
    case 4 => [Group(2, 50, 32)]
    case 5 => [Group(2, 67, 43)]
    case 6 => [Group(4, 43, 27)]
    case 7 => [Group(4, 49, 31)]
    case 8 => [Group(2, 60, 38), Group(2, 61, 39)]
    case 9 => [Group(3, 58, 36), Group(2, 59, 37)]
    case 10 => [Group(4, 69, 43), Group(1, 70, 44)]
    case 11 => [Group(1, 80, 50), Group(4, 81, 51)]
    case 12 => [Group(6, 58, 36), Group(2, 59, 37)]
    case 13 => [Group(8, 59, 37), Group(1, 60, 38)]
    case 14 => [Group(4, 64, 40), Group(5, 65, 41)]
    case 15 => [Group(5, 65, 41), Group(5, 66, 42)]
    case 16 => [Group(7, 73, 45), Group(3, 74, 46)]
    case 17 => [Group(10, 74, 46), Group(1, 75, 47)]
    case 18 => [Group(9, 69, 43), Group(4, 70, 44)]
    case 19 => [Group(3, 70, 44), Group(11, 71, 45)]
    case 20 => [Group(3, 67, 41), Group(13, 68, 42)]
    case 21 => [Group(17, 68, 42)]
    case 22 => [Group(17, 74, 46)]
    case 23 => [Group(4, 75, 47), Group(14, 76, 48)]
    case 24 => [Group(6, 73, 45), Group(14, 74, 46)]
    case 25 => [Group(8, 75, 47), Group(13, 76, 48)]
    case 26 => [Group(19, 74, 46), Group(4, 75, 47)]
    case 27 => [Group(22, 73, 45), Group(3, 74, 46)]
    case 28 => [Group(3, 73, 45), Group(23, 74, 46)]
    case 29 => [Group(21, 73, 45), Group(7, 74, 46)]
    case 30 => [Group(19, 75, 47), Group(10, 76, 48)]
    case 31 => [Group(2, 74, 46), Group(29, 75, 47)]
    case 32 => [Group(10, 74, 46), Group(23, 75, 47)]
    case 33 => [Group(14, 74, 46), Group(21, 75, 47)]
    case 34 => [Group(14, 74, 46), Group(23, 75, 47)]
    case 35 => [Group(12, 75, 47), Group(26, 76, 48)]
    case 36 => [Group(6, 75, 47), Group(34, 76, 48)]
    case 37 => [Group(29, 74, 46), Group(14, 75, 47)]
    case 38 => [Group(13, 74, 46), Group(32, 75, 47)]
    case 39 => [Group(40, 75, 47), Group(7, 76, 48)]
    case _ => [Group(18, 75, 47), Group(31, 76, 48)]
  }

  /** Row and column positions of the alignment pattern centres. */
  function AlignPos(v: int): seq<int>
    requires IsVersion(v)
  {
    match v
    case 1 => []
    case 2 => [6, 18]
    case 3 => [6, 22]
    case 4 => [6, 26]
    case 5 => [6, 30]
    case 6 => [6, 34]
    case 7 => [6, 22, 38]
    case 8 => [6, 24, 42]
    case 9 => [6, 26, 46]
    case 10 => [6, 28, 50]
    case 11 => [6, 30, 54]
    case 12 => [6, 32, 58]
    case 13 => [6, 34, 62]
    case 14 => [6, 26, 46, 66]
    case 15 => [6, 26, 48, 70]
    case 16 => [6, 26, 50, 74]
    case 17 => [6, 30, 54, 78]
    case 18 => [6, 30, 56, 82]
    case 19 => [6, 30, 58, 86]
    case 20 => [6, 34, 62, 90]
    case 21 => [6, 28, 50, 72, 94]
    case 22 => [6, 26, 50, 74, 98]
    case 23 => [6, 30, 54, 78, 102]
    case 24 => [6, 28, 54, 80, 106]
    case 25 => [6, 32, 58, 84, 110]
    case 26 => [6, 30, 58, 86, 114]
    case 27 => [6, 34, 62, 90, 118]
    case 28 => [6, 26, 50, 74, 98, 122]
    case 29 => [6, 30, 54, 78, 102, 126]
    case 30 => [6, 26, 52, 78, 104, 130]
    case 31 => [6, 30, 56, 82, 108, 134]
    case 32 => [6, 34, 60, 86, 112, 138]
    case 33 => [6, 30, 58, 86, 114, 142]
    case 34 => [6, 34, 62, 90, 118, 146]
    case 35 => [6, 30, 54, 78, 102, 126, 150]
    case 36 => [6, 24, 50, 76, 102, 128, 154]
    case 37 => [6, 28, 54, 80, 106, 132, 158]
    case 38 => [6, 32, 58, 84, 110, 136, 162]
    case 39 => [6, 26, 54, 82, 110, 138, 166]
    case _ => [6, 30, 58, 86, 114, 142, 170]
  }

  /**
    One or two runs of blocks, each with the same even number of parity bytes, within the codeword
    limit and capacity; blocks of the second run hold one data codeword more.
   */
  predicate Shape(groups: seq<Group>, v: int) {
    && 1 <= |groups| <= 2
    && groups[0].count > 0 && groups[0].total >= groups[0].data && (groups[0].total - groups[0].data) % 2 == 0
    && (|groups| == 2 ==>
         groups[1].count > 0 && groups[1].total == groups[0].total + 1 && groups[1].data == groups[0].data + 1)
    && groups[0].data < groups[0].total <= 255
    && (|groups| == 2 ==> groups[1].data < groups[1].total <= 255)
    && groups[0].count * groups[0].data
       + (if |groups| == 2 then groups[1].count * groups[1].data else 0)
       <= if v < 10 then 182 else 2334
  }

  lemma RsBlocksShape(v: int)
    requires IsVersion(v)
    ensures Shape(RsBlocks(v), v)
  {
    if v <= 20 { RsBlocksShapeLow(v); } else { RsBlocksShapeHigh(v); }
  }

  lemma RsBlocksShapeLow(v: int)
    requires 1 <= v <= 20
    ensures Shape(RsBlocks(v), v)
  {}

  lemma RsBlocksShapeHigh(v: int)
    requires 21 <= v <= 40
    ensures Shape(RsBlocks(v), v)
  {}
}
