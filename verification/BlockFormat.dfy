/** The bits of one compressed block, as sendMTFValues and BZ2_compressBlock lay them out. */
module BlockFormat {
  import opened Base
  import opened BitString
  import opened MoveToFront
  import opened MtfEncoder
  import opened CanonicalCode

  const GROUP_SIZE := 50
  const MAX_GROUPS := 6
  const MAX_SELECTORS := 18002   // BZ_MAX_SELECTORS: the entries of selector and selectorMtf

  type UseMap = u: seq<bool> | |u| == 256 witness seq(256, _ => false)

  /** The choices sendMTFValues makes: which bytes occur, the code lengths of each table, the table of each group. */
  datatype Coding = Coding(used: UseMap, lens: seq<seq<byte>>, selectors: seq<nat>)

  function AlphaSize(used: UseMap): nat {
    |Used(used, 256)| + 2
  }

  /** A code-length table a decoder accepts and a Huffman code can have. */
  ghost predicate ValidLens(row: seq<byte>, alphaSize: nat) {
    |row| == alphaSize && FitsKraft(row, MAX_LEN)
  }

  ghost predicate ValidCoding(c: Coding, nSymbols: nat) {
    && Used(c.used, 256) != []
    && 2 <= |c.lens| <= MAX_GROUPS && (forall t :: 0 <= t < |c.lens| ==> ValidLens(c.lens[t], AlphaSize(c.used)))
    && 1 <= |c.selectors| <= MAX_SELECTORS && (forall i :: 0 <= i < |c.selectors| ==> c.selectors[i] < |c.lens|)
    && nSymbols <= GROUP_SIZE * |c.selectors|
  }

  // ---- the mapping table ----

  function GroupUsed(used: UseMap, g: nat): bool
    requires g < 16
  {
    true in used[16 * g..16 * g + 16]
  }

  function UsedGroups(used: UseMap): (s: seq<bool>)
    ensures |s| == 16 && forall g :: 0 <= g < 16 ==> s[g] == GroupUsed(used, g)
  {
    seq(16, g requires 0 <= g < 16 => GroupUsed(used, g))
  }

  /** The sixteen-bit maps of groups g..15, unused groups skipped. */
  function GroupMaps(used: UseMap, g: nat): Bits
    requires g <= 16
    decreases 16 - g
  {
    if g == 16 then []
    else (if GroupUsed(used, g) then used[16 * g..16 * g + 16] else []) + GroupMaps(used, g + 1)
  }

  function MapBits(used: UseMap): Bits {
    UsedGroups(used) + GroupMaps(used, 0)
  }

  // ---- the selectors ----

  function Unary(n: nat): Bits {
    if n == 0 then [false] else [true] + Unary(n - 1)
  }

  function UnaryAll(m: seq<nat>): Bits {
    if m == [] then [] else Unary(m[0]) + UnaryAll(m[1..])
  }

  /** Selectors as positions in a list that moves each used table to the front. */
  function SelectorMtf(pos: seq<int>, sel: seq<nat>): (m: seq<nat>)
    requires forall i :: 0 <= i < |sel| ==> sel[i] in pos
    ensures |m| == |sel| && forall i :: 0 <= i < |m| ==> m[i] < |pos|
    decreases |sel|
  {
    if sel == [] then []
    else
      var k := IndexOf(pos, sel[0]);
      MoveKeepsElements(pos, k);
      [k] + SelectorMtf(Move(pos, k), sel[1..])
  }

  // ---- the code lengths ----

  /** From `curr` to `x` in unit steps: 10 counts up, 11 counts down. */
  function Delta(curr: nat, x: nat): Bits
    decreases if curr < x then x - curr else curr - x
  {
    if curr < x then [true, false] + Delta(curr + 1, x)
    else if curr > x then [true, true] + Delta(curr - 1, x)
    else [false]
  }

  function Deltas(curr: nat, row: seq<byte>): Bits
    decreases |row|
  {
    if row == [] then [] else Delta(curr, row[0]) + Deltas(row[0], row[1..])
  }

  function RowBits(row: seq<byte>): Bits
    requires row != []
  {
    ToBits(row[0], 5) + Deltas(row[0], row)
  }

  function AllRows(lens: seq<seq<byte>>): Bits
    requires forall t :: 0 <= t < |lens| ==> lens[t] != []
  {
    if lens == [] then [] else RowBits(lens[0]) + AllRows(lens[1..])
  }

  // ---- the symbols ----

  ghost predicate SymbolsFit(c: Coding, syms: seq<nat>) {
    forall i :: 0 <= i < |syms| ==> syms[i] < AlphaSize(c.used)
  }

  /** The codes of symbols k, k+1, ..: each group of fifty uses its selected table. */
  ghost function CodesFrom(c: Coding, syms: seq<nat>, k: nat): Bits
    requires ValidCoding(c, |syms|) && SymbolsFit(c, syms) && k <= |syms|
    decreases |syms| - k
  {
    if k == |syms| then []
    else CodeBits(c.lens[c.selectors[k / GROUP_SIZE]], syms[k]) + CodesFrom(c, syms, k + 1)
  }

  /** Everything sendMTFValues writes. */
  ghost function BodyBits(c: Coding, syms: seq<nat>): Bits
    requires ValidCoding(c, |syms|) && SymbolsFit(c, syms)
  {
    ReadySelectors(c, |syms|);
    MapBits(c.used) + (ToBits(|c.lens|, 3) + (ToBits(|c.selectors|, 15)
      + (UnaryAll(SelectorMtf(Range(|c.lens|), c.selectors)) + (AllRows(c.lens) + CodesFrom(c, syms, 0)))))
  }

  lemma ReadySelectors(c: Coding, n: nat)
    requires ValidCoding(c, n)
    ensures forall i :: 0 <= i < |c.selectors| ==> c.selectors[i] in Range(|c.lens|)
    ensures forall t :: 0 <= t < |c.lens| ==> c.lens[t] != []
  {
    forall i | 0 <= i < |c.selectors|
      ensures c.selectors[i] in Range(|c.lens|)
    {
      assert Range(|c.lens|)[c.selectors[i]] == c.selectors[i];
    }
  }

  const BLOCK_MAGIC: seq<byte> := [0x31, 0x41, 0x59, 0x26, 0x53, 0x59]
  const END_MAGIC: seq<byte> := [0x17, 0x72, 0x45, 0x38, 0x50, 0x90]

  /** A non-empty block: magic, checksum, the randomised bit (always clear), the origin row, the body. */
  ghost function BlockBits(crc: nat, origPtr: nat, c: Coding, syms: seq<nat>): Bits
    requires ValidCoding(c, |syms|) && SymbolsFit(c, syms)
  {
    BytesToBits(BLOCK_MAGIC) + (ToBits(crc, 32) + ([false] + (ToBits(origPtr, 24) + BodyBits(c, syms))))
  }

  /** The stream trailer. */
  function TrailerBits(crc: nat): Bits {
    BytesToBits(END_MAGIC) + ToBits(crc, 32)
  }

  const MAGIC: seq<byte> := [0x42, 0x5a, 0x68]

  /** The stream header. */
  function HeaderBits(level: nat): Bits {
    BytesToBits(MAGIC) + ToBits(0x30 + level, 8)
  }
}
