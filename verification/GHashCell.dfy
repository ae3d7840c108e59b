/** The 64-bit ghash table cell and the type sources it points into. */
module GHashCell {
  import opened Words

  /** A ghash: the eight bytes of a global type hash, read as a little-endian word. */
  type GHash = g: nat | g < TWO_64

  /** Position of a type record: source number, then index inside that source. */
  datatype RecordId = RecordId(src: nat, idx: nat)

  /** The part of a type source that insertion reads. `endPrecomp` is the index of the
      record to leave out of the PDB, or all ones when there is none. */
  datatype Source = Source(ghashes: seq<GHash>, isItem: seq<bool>, endPrecomp: nat)

  type Inputs = seq<Source>

  /** A cell packs isItem (bit 63), source number plus one (bits 32-62) and index (bits 0-31). */
  type Cell = c: nat | c < TWO_64

  const EMPTY: Cell := 0

  function MakeCell(isItem: bool, src: nat, idx: nat): (c: Cell)
    requires src + 1 < TWO_31 && idx < TWO_32
    ensures c != EMPTY
    ensures IsItem(c) == isItem && TpiSrcIdx(c) == src && GHashIdx(c) == idx
  {
    var c := (if isItem then TWO_63 else 0) + (src + 1) * TWO_32 + idx;
    assert c / TWO_32 == (if isItem then TWO_31 else 0) + (src + 1);
    assert (c / TWO_32) % TWO_31 == src + 1;
    c
  }

  predicate IsItem(c: Cell) { c >= TWO_63 }

  function TpiSrcIdx(c: Cell): int { (c / TWO_32) % TWO_31 - 1 }

  function GHashIdx(c: Cell): nat { c % TWO_32 }

  /** Types come before items, then the earlier source, then the earlier record. */
  predicate Before(item1: bool, r1: RecordId, item2: bool, r2: RecordId) {
    if item1 != item2 then item2
    else if r1.src != r2.src then r1.src < r2.src
    else r1.idx < r2.idx
  }

  /** The integer order on cells is exactly that priority order. */
  lemma CellOrder(item1: bool, r1: RecordId, item2: bool, r2: RecordId)
    requires r1.src + 1 < TWO_31 && r1.idx < TWO_32 && r2.src + 1 < TWO_31 && r2.idx < TWO_32
    ensures MakeCell(item1, r1.src, r1.idx) < MakeCell(item2, r2.src, r2.idx)
            <==> Before(item1, r1, item2, r2)
  {
  }

  ghost predicate Valid(inp: Inputs) {
    |inp| + 1 < TWO_31 &&
    forall s :: 0 <= s < |inp| ==> |inp[s].ghashes| == |inp[s].isItem| && |inp[s].ghashes| < TWO_32
  }

  predicate InRange(inp: Inputs, r: RecordId) {
    r.src < |inp| && r.idx < |inp[r.src].ghashes|
  }

  predicate Omitted(inp: Inputs, r: RecordId)
    requires InRange(inp, r)
  {
    r.idx == inp[r.src].endPrecomp
  }

  function HashOf(inp: Inputs, r: RecordId): GHash
    requires InRange(inp, r)
  {
    inp[r.src].ghashes[r.idx]
  }

  function CellOf(inp: Inputs, r: RecordId): (c: Cell)
    requires Valid(inp) && InRange(inp, r)
    ensures IdOf(c) == r && c != EMPTY
  {
    MakeCell(inp[r.src].isItem[r.idx], r.src, r.idx)
  }

  /** The record a filled cell points at. */
  function IdOf(c: Cell): RecordId {
    RecordId(if TpiSrcIdx(c) < 0 then 0 else TpiSrcIdx(c), GHashIdx(c))
  }

  /** The record takes part in deduplication. */
  ghost predicate Inserted(inp: Inputs, r: RecordId) {
    InRange(inp, r) && !Omitted(inp, r)
  }

  /** `c` is the cell some inserted record would write. */
  ghost predicate IsInputCell(inp: Inputs, c: Cell)
    requires Valid(inp)
  {
    Inserted(inp, IdOf(c)) && CellOf(inp, IdOf(c)) == c
  }

  function KeyOf(inp: Inputs, c: Cell): GHash
    requires InRange(inp, IdOf(c))
  {
    HashOf(inp, IdOf(c))
  }

  /** Reverses the eight bytes of a 64-bit word. */
  function ByteSwap(g: GHash): nat { SwapBytes(g, 8) }

  function SwapBytes(g: nat, bytes: nat): nat {
    if bytes == 0 then 0 else (g % 256) * Pow256(bytes - 1) + SwapBytes(g / 256, bytes - 1)
  }

  function StartIdx(g: GHash, size: nat): (i: nat)
    requires size > 0
    ensures i < size
  {
    ByteSwap(g) % size
  }
}
