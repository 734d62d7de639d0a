/** The table handle that the builder produces and the iterator reads
    (`crate::table`, whose `SsTable` methods are not part of this model):
    block metadata, the search over first keys, and reading one block. */
module Table {
  import opened Bytes
  import opened Keys
  import opened Block

  /** `BlockMeta`: where a block's bytes start and the first key recorded for it. */
  datatype BlockMeta = BlockMeta(offset: nat, firstKey: Key)

  /** `SsTable`: the file's bytes (standing for the `FileObject`), its block
      metadata and the offset at which the encoded metadata starts. */
  datatype SsTable = SsTable(file: seq<byte>, blockMetas: seq<BlockMeta>, blockMetaOffset: nat)

  /** `SsTable::num_of_blocks`. */
  function NumOfBlocks(t: SsTable): nat
  {
    |t.blockMetas|
  }

  /** Where block `i`'s bytes end: the next block's offset, or the start of
      the metadata for the last block. */
  function BlockEnd(t: SsTable, i: nat): nat
    requires i < |t.blockMetas|
  {
    if i + 1 < |t.blockMetas| then t.blockMetas[i + 1].offset else t.blockMetaOffset
  }

  /** A table whose blocks can all be read: at least one block (the builder
      always emits one), offsets in order, and all of them inside the data
      region, which lies inside the file. */
  predicate TableOk(t: SsTable)
  {
    && |t.blockMetas| >= 1
    && t.blockMetaOffset <= |t.file|
    && (forall i, j :: 0 <= i <= j < |t.blockMetas| ==> t.blockMetas[i].offset <= t.blockMetas[j].offset)
    && (forall i :: 0 <= i < |t.blockMetas| ==> t.blockMetas[i].offset <= t.blockMetaOffset)
  }

  /** Every block's byte range is well formed and lies in the data region. */
  lemma BlockRangeInside(t: SsTable, i: nat)
    requires TableOk(t) && i < |t.blockMetas|
    ensures t.blockMetas[i].offset <= BlockEnd(t, i) <= t.blockMetaOffset
  {
  }

  /** `read_block_cached(i)` without the cache: decode the bytes of block `i`. */
  function ReadBlock(t: SsTable, codec: BlockCodec, i: nat): Block
    requires TableOk(t) && i < |t.blockMetas|
  {
    BlockRangeInside(t, i);
    codec.decode(t.file[t.blockMetas[i].offset..BlockEnd(t, i)])
  }

  /** All blocks of the table, decoded. */
  function Blocks(t: SsTable, codec: BlockCodec): (bs: seq<Block>)
    requires TableOk(t)
    ensures |bs| == |t.blockMetas|
    ensures forall i :: 0 <= i < |bs| ==> bs[i] == ReadBlock(t, codec, i)
  {
    seq(|t.blockMetas|, i requires 0 <= i < |t.blockMetas| => ReadBlock(t, codec, i))
  }

  /** `SsTable::find_block_idx`: the last block whose first key is `<= key`,
      or block 0 when every first key is larger. */
  function FindBlockIdx(metas: seq<BlockMeta>, key: Key): (r: nat)
    ensures |metas| > 0 ==> r < |metas|
    ensures forall j :: r < j < |metas| ==> KeyLt(key, metas[j].firstKey)
    ensures r < |metas| && !KeyLe(metas[r].firstKey, key) ==>
              r == 0 && forall j :: 0 <= j < |metas| ==> KeyLt(key, metas[j].firstKey)
  {
    if |metas| <= 1 then
      (if |metas| == 1 then KeyLtNotLe(key, metas[0].firstKey); 0 else 0)
    else if KeyLe(metas[|metas| - 1].firstKey, key) then |metas| - 1
    else
      KeyLtNotLe(key, metas[|metas| - 1].firstKey);
      FindBlockIdx(metas[..|metas| - 1], key)
  }
}
