/** `SsTableBuilder` (mini-lsm-starter/src/table/builder.rs): packs an
    ordered stream of pairs into blocks and lays out the table file. */
module Builder {
  import opened Bytes
  import opened Keys
  import opened Seqs
  import opened Block
  import opened Table

  /** The encoded bytes of each block, in order. */
  function Encodings(codec: BlockCodec, bs: seq<Block>): (es: seq<seq<byte>>)
    ensures |es| == |bs|
    ensures forall i :: 0 <= i < |bs| ==> es[i] == codec.encode(bs[i])
  {
    seq(|bs|, i requires 0 <= i < |bs| => codec.encode(bs[i]))
  }

  /** The first non-empty key among the entries: what `first_key` holds
      while those entries are pending (`add` only sets `first_key` while it is
      empty, so an empty key leaves it to the next pair). */
  function FirstNonEmptyKey(entries: Block): Key
  {
    if entries == [] then []
    else if entries[0].key != [] then entries[0].key
    else FirstNonEmptyKey(entries[1..])
  }

  ghost predicate NonEmptyKeys(entries: seq<Entry>)
  {
    forall i :: 0 <= i < |entries| ==> entries[i].key != []
  }

  /** Appending a pair sets the tracked first key exactly when none was set. */
  lemma {:induction false} FirstNonEmptyKeyAppend(entries: Block, e: Entry)
    ensures FirstNonEmptyKey(entries + [e]) ==
              if FirstNonEmptyKey(entries) == [] then e.key else FirstNonEmptyKey(entries)
  {
    if entries != [] {
      assert (entries + [e])[1..] == entries[1..] + [e];
      FirstNonEmptyKeyAppend(entries[1..], e);
    } else {
      assert [] + [e] == [e];
    }
  }

  /** With non-empty keys, `first_key` is set iff the pending block holds
      entries, and then it is the block's first key. */
  lemma FirstKeyOfNonEmptyKeys(entries: Block)
    requires NonEmptyKeys(entries)
    ensures FirstNonEmptyKey(entries) != [] <==> entries != []
    ensures entries != [] ==> FirstNonEmptyKey(entries) == entries[0].key
  {
  }

  /** The file `build` writes: data blocks, encoded metadata, and the
      metadata offset as a big-endian u32. */
  function Layout(data: seq<byte>, metas: seq<BlockMeta>, encodeMetas: seq<BlockMeta> -> seq<byte>): (t: SsTable)
    requires |data| < U32_LIMIT
    ensures t.blockMetas == metas && t.blockMetaOffset == |data|
    ensures |t.file| == |data| + |encodeMetas(metas)| + 4
    ensures t.file[..|data|] == data
    ensures t.file[|data|..|t.file| - 4] == encodeMetas(metas)
    ensures DecodeU32(t.file[|t.file| - 4..]) == |data|
  {
    var file := data + encodeMetas(metas) + EncodeU32(|data|);
    assert file[|file| - 4..] == EncodeU32(|data|);
    DecodeEncodeU32(|data|);
    SsTable(file, metas, |data|)
  }

  /** Metadata whose offsets are the cumulative encoded sizes of the blocks before each one. */
  ghost predicate OffsetsCumulative(codec: BlockCodec, blocks: seq<Block>, metas: seq<BlockMeta>)
  {
    && |metas| == |blocks|
    && forall i :: 0 <= i < |metas| ==> metas[i].offset == Prefix(Encodings(codec, blocks), i)
  }

  /** Offsets start at 0, never decrease, and strictly increase past a block
      whose encoding is non-empty. */
  lemma MetaOffsetsAscending(codec: BlockCodec, blocks: seq<Block>, metas: seq<BlockMeta>, i: nat, j: nat)
    requires OffsetsCumulative(codec, blocks, metas)
    requires i <= j < |metas|
    ensures metas[0].offset == 0
    ensures metas[i].offset <= metas[j].offset
    ensures i < j && codec.encode(blocks[j - 1]) != [] ==> metas[i].offset < metas[j].offset
  {
    PrefixMonotone(Encodings(codec, blocks), i, j);
  }

  /** The laid-out file: every block's byte range holds exactly its encoding,
      the ranges fit the data region, and the footer reads back as the
      metadata offset. */
  lemma LayoutFrames(codec: BlockCodec, blocks: seq<Block>, metas: seq<BlockMeta>,
                     encodeMetas: seq<BlockMeta> -> seq<byte>)
    requires OffsetsCumulative(codec, blocks, metas) && |blocks| >= 1
    requires |Concat(Encodings(codec, blocks))| < U32_LIMIT
    ensures var data := Concat(Encodings(codec, blocks));
            var t := Layout(data, metas, encodeMetas);
            && TableOk(t)
            && t.blockMetaOffset == |data|
            && DecodeU32(t.file[|t.file| - 4..]) == |data|
            && forall i :: 0 <= i < |blocks| ==>
                 t.file[metas[i].offset..BlockEnd(t, i)] == codec.encode(blocks[i])
  {
    var es := Encodings(codec, blocks);
    var data := Concat(es);
    var t := Layout(data, metas, encodeMetas);
    PrefixAll(es);
    forall i, j | 0 <= i <= j < |metas| ensures metas[i].offset <= metas[j].offset {
      PrefixMonotone(es, i, j);
    }
    forall i | 0 <= i < |metas| ensures metas[i].offset <= t.blockMetaOffset {
      PrefixMonotone(es, i, |es|);
    }
    forall i | 0 <= i < |blocks|
      ensures t.file[metas[i].offset..BlockEnd(t, i)] == codec.encode(blocks[i])
    {
      PrefixStep(es, i);
      assert BlockEnd(t, i) == Prefix(es, i + 1);
      ConcatSlice(es, i);
    }
  }

  /** A laid-out table, read back through a codec whose decoding inverts
      its encoding, yields exactly the blocks it was built from. */
  lemma LayoutReadsBack(codec: BlockCodec, blocks: seq<Block>, metas: seq<BlockMeta>,
                        encodeMetas: seq<BlockMeta> -> seq<byte>)
    requires OffsetsCumulative(codec, blocks, metas) && |blocks| >= 1
    requires |Concat(Encodings(codec, blocks))| < U32_LIMIT
    requires RoundTrips(codec)
    ensures TableOk(Layout(Concat(Encodings(codec, blocks)), metas, encodeMetas))
    ensures Blocks(Layout(Concat(Encodings(codec, blocks)), metas, encodeMetas), codec) == blocks
  {
    LayoutFrames(codec, blocks, metas, encodeMetas);
    var t := Layout(Concat(Encodings(codec, blocks)), metas, encodeMetas);
    var bs := Blocks(t, codec);
    forall i | 0 <= i < |blocks| ensures bs[i] == blocks[i] {
      assert codec.decode(codec.encode(blocks[i])) == blocks[i];
    }
  }

  /** The finished part of a builder: one meta per block, the data region is
      the blocks' encodings end to end, and each offset is where its block starts. */
  ghost predicate Framing(codec: BlockCodec, blocks: seq<Block>, metas: seq<BlockMeta>, data: seq<byte>)
  {
    OffsetsCumulative(codec, blocks, metas) && data == Concat(Encodings(codec, blocks))
  }

  /** Each recorded first key is the first non-empty key of its block, when it has one. */
  ghost predicate FirstKeysTracked(blocks: seq<Block>, metas: seq<BlockMeta>)
  {
    forall i :: 0 <= i < |blocks| && i < |metas| && FirstNonEmptyKey(blocks[i]) != [] ==>
      metas[i].firstKey == FirstNonEmptyKey(blocks[i])
  }

  /** The builder's invariant, over its fields and the pairs added so far:
      finished blocks followed by the pending block are exactly those pairs. */
  ghost predicate BuilderInv(codec: BlockCodec, blocks: seq<Block>, metas: seq<BlockMeta>, data: seq<byte>,
                             pending: Block, firstKey: Key, added: seq<Entry>)
  {
    && Framing(codec, blocks, metas, data)
    && Concat(blocks) + pending == added
    && firstKey == FirstNonEmptyKey(pending)
    && NoEmptyBlocks(blocks)
    && (pending == [] ==> blocks == [])
    && FirstKeysTracked(blocks, metas)
  }

  /** Retiring a block keeps the framing: its meta records the old data length. */
  lemma FinishKeepsFraming(codec: BlockCodec, blocks: seq<Block>, metas: seq<BlockMeta>, data: seq<byte>,
                           b: Block, firstKey: Key)
    requires Framing(codec, blocks, metas, data)
    ensures Framing(codec, blocks + [b], metas + [BlockMeta(|data|, firstKey)], data + codec.encode(b))
  {
    var es := Encodings(codec, blocks);
    var es' := Encodings(codec, blocks + [b]);
    var metas' := metas + [BlockMeta(|data|, firstKey)];
    assert es' == es + [codec.encode(b)];
    ConcatAppend(es, codec.encode(b));
    forall i | 0 <= i < |metas'| ensures metas'[i].offset == Prefix(es', i) {
      PrefixOfPrefix(es', |es|, i);
      assert es'[..|es|] == es;
      if i == |es| {
        assert es[..|es|] == es;
      }
    }
  }

  /** `add` when the pending block takes the pair. */
  lemma AcceptKeepsInv(codec: BlockCodec, blocks: seq<Block>, metas: seq<BlockMeta>, data: seq<byte>,
                       pending: Block, firstKey: Key, added: seq<Entry>, e: Entry)
    requires BuilderInv(codec, blocks, metas, data, pending, firstKey, added)
    ensures BuilderInv(codec, blocks, metas, data, pending + [e],
                       if firstKey == [] then e.key else firstKey, added + [e])
  {
    FirstNonEmptyKeyAppend(pending, e);
  }

  /** `add` when the pending block is full: it is retired and the pair starts a new one. */
  lemma RolloverKeepsInv(codec: BlockCodec, blocks: seq<Block>, metas: seq<BlockMeta>, data: seq<byte>,
                         pending: Block, firstKey: Key, added: seq<Entry>, e: Entry)
    requires BuilderInv(codec, blocks, metas, data, pending, firstKey, added)
    requires pending != []
    ensures var fk := if firstKey == [] then e.key else firstKey;
            BuilderInv(codec, blocks + [pending], metas + [BlockMeta(|data|, fk)],
                       data + codec.encode(pending), [e], e.key, added + [e])
  {
    var fk := if firstKey == [] then e.key else firstKey;
    FinishKeepsFraming(codec, blocks, metas, data, pending, fk);
    ConcatAppend(blocks, pending);
    if e.key == [] {
      assert FirstNonEmptyKey([e]) == FirstNonEmptyKey([]);
    }
  }

  /** What `build` produces from a builder in state `(blocks, metas, data,
      pending, firstKey)`: the last block retired (even when empty), and the
      laid-out table read back block by block. */
  lemma BuildKeepsContent(codec: BlockCodec, blocks: seq<Block>, metas: seq<BlockMeta>, data: seq<byte>,
                          pending: Block, firstKey: Key, added: seq<Entry>)
    requires BuilderInv(codec, blocks, metas, data, pending, firstKey, added)
    ensures var blocks' := blocks + [pending];
            var metas' := metas + [BlockMeta(|data|, firstKey)];
            var data' := data + codec.encode(pending);
            && Framing(codec, blocks', metas', data')
            && Concat(blocks') == added
            && (added != [] ==> NoEmptyBlocks(blocks'))
            && FirstKeysTracked(blocks', metas')
  {
    FinishKeepsFraming(codec, blocks, metas, data, pending, firstKey);
    ConcatAppend(blocks, pending);
  }

  /** Builds an SSTable from key-value pairs. */
  class SsTableBuilder {
    var meta: seq<BlockMeta>
    /** The pending `BlockBuilder`, as the entries it holds. */
    var builder: Block
    var firstKey: Key
    var data: seq<byte>
    const blockSize: nat
    const codec: BlockCodec
    /** `BlockMeta::encode_block_meta`. */
    const encodeMetas: seq<BlockMeta> -> seq<byte>

    /** Every pair passed to `add`, in order. */
    ghost var added: seq<Entry>
    /** The entries of every finished block, in order. */
    ghost var blocks: seq<Block>

    ghost predicate Valid()
      reads this
    {
      BuilderInv(codec, blocks, meta, data, builder, firstKey, added)
    }

    /** `SsTableBuilder::new(block_size)`. */
    constructor (blockSize: nat, codec: BlockCodec, encodeMetas: seq<BlockMeta> -> seq<byte>)
      ensures Valid()
      ensures this.blockSize == blockSize && this.codec == codec && this.encodeMetas == encodeMetas
      ensures meta == [] && builder == [] && firstKey == [] && data == []
      ensures added == [] && blocks == []
    {
      meta := [];
      builder := [];
      firstKey := [];
      data := [];
      this.blockSize := blockSize;
      this.codec := codec;
      this.encodeMetas := encodeMetas;
      added := [];
      blocks := [];
    }

    /** `BlockBuilder::add` on the pending block. */
    method AddToBlock(key: Key, value: Value) returns (ok: bool)
      modifies this`builder
      ensures ok == Accepts(codec, blockSize, old(builder), key, value)
      ensures builder == if ok then old(builder) + [Entry(key, value)] else old(builder)
    {
      ok := Accepts(codec, blockSize, builder, key, value);
      if ok {
        builder := builder + [Entry(key, value)];
      }
    }

    /** `SsTableBuilder::add`. */
    method Add(key: Key, value: Value)
      requires Valid()
      modifies this
      ensures Valid()
      ensures added == old(added) + [Entry(key, value)]
      ensures var fk := if old(firstKey) == [] then key else old(firstKey);
              if Accepts(codec, blockSize, old(builder), key, value) then
                && builder == old(builder) + [Entry(key, value)] && firstKey == fk
                && meta == old(meta) && data == old(data) && blocks == old(blocks)
              else
                && meta == old(meta) + [BlockMeta(|old(data)|, fk)]
                && data == old(data) + codec.encode(old(builder))
                && blocks == old(blocks) + [old(builder)]
                && builder == [Entry(key, value)] && firstKey == key
      ensures EstimatedSize() >= old(EstimatedSize())
    {
      ghost var e := Entry(key, value);
      AcceptKeepsInv(codec, blocks, meta, data, builder, firstKey, added, e);
      if builder != [] {
        RolloverKeepsInv(codec, blocks, meta, data, builder, firstKey, added, e);
      }
      added := added + [e];
      if firstKey == [] {
        firstKey := key;
      }
      var ok := AddToBlock(key, value);
      if ok {
        return;
      }
      FinishBlock();
      ok := AddToBlock(key, value);
      assert ok;
      firstKey := key;
      assert [] + [e] == [e];
    }

    /** `SsTableBuilder::finish_block`: retire the pending block, record its
        meta and append its encoding to the data region. */
    method FinishBlock()
      requires Framing(codec, blocks, meta, data)
      modifies this`meta, this`data, this`firstKey, this`builder, this`blocks
      ensures Framing(codec, blocks, meta, data)
      ensures meta == old(meta) + [BlockMeta(|old(data)|, old(firstKey))]
      ensures data == old(data) + codec.encode(old(builder))
      ensures blocks == old(blocks) + [old(builder)]
      ensures builder == [] && firstKey == []
    {
      FinishKeepsFraming(codec, blocks, meta, data, builder, firstKey);
      var retired := builder;
      builder := [];
      var encoded := codec.encode(retired);
      meta := meta + [BlockMeta(|data|, firstKey)];
      firstKey := [];
      data := data + encoded;
      blocks := blocks + [retired];
    }

    /** `SsTableBuilder::estimated_size`: the encoded size of the finished
        blocks, leaving out the pending one and the metadata. */
    function EstimatedSize(): (size: nat)
      reads this
      requires Valid()
      ensures size == |Concat(Encodings(codec, blocks))|
    {
      |data|
    }

    /** `SsTableBuilder::build` up to the file it writes: finish the last
        block unconditionally, then lay out data, metadata and footer. */
    method Build() returns (table: SsTable)
      requires Valid()
      requires |data| + |codec.encode(builder)| < U32_LIMIT
      modifies this
      ensures meta == old(meta) + [BlockMeta(|old(data)|, old(firstKey))]
      ensures data == old(data) + codec.encode(old(builder))
      ensures blocks == old(blocks) + [old(builder)]
      ensures table == Layout(data, meta, encodeMetas)
      ensures table.blockMetaOffset == |data|
      ensures DecodeU32(table.file[|table.file| - 4..]) == table.blockMetaOffset
      ensures TableOk(table)
      ensures forall i :: 0 <= i < |blocks| ==>
                table.file[meta[i].offset..BlockEnd(table, i)] == codec.encode(blocks[i])
      ensures RoundTrips(codec) ==> Blocks(table, codec) == blocks
      ensures Concat(blocks) == old(added)
      ensures old(added) != [] ==> NoEmptyBlocks(blocks)
      ensures FirstKeysTracked(blocks, meta)
    {
      BuildKeepsContent(codec, blocks, meta, data, builder, firstKey, added);
      FinishBlock();
      var buf := data;
      var metaOffset := |buf|;
      buf := buf + encodeMetas(meta);
      buf := buf + EncodeU32(metaOffset);
      table := SsTable(buf, meta, metaOffset);
      LayoutFrames(codec, blocks, meta, encodeMetas);
      if RoundTrips(codec) {
        LayoutReadsBack(codec, blocks, meta, encodeMetas);
      }
    }
  }
}
