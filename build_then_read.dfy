/** What a table written by `SsTableBuilder::build` looks like to an
    `SsTableIterator`: the builder's guarantees and the iterator's meet here. */
module BuildThenRead {
  import opened Bytes
  import opened Keys
  import opened Seqs
  import opened Block
  import opened Table
  import opened Builder
  import opened TableIterator

  /** The state `build` leaves behind (see `SsTableBuilder.Build`): the
      finished blocks and their metas, framed, holding every added pair, no
      block empty once a pair was added, and small enough for the u32 footer. */
  ghost predicate Built(codec: BlockCodec, blocks: seq<Block>, metas: seq<BlockMeta>, added: seq<Entry>)
  {
    && OffsetsCumulative(codec, blocks, metas)
    && |blocks| >= 1
    && |Concat(Encodings(codec, blocks))| < U32_LIMIT
    && Concat(blocks) == added
    && (added != [] ==> NoEmptyBlocks(blocks))
    && FirstKeysTracked(blocks, metas)
  }

  /** Full-scan equivalence: iterating the built table from `seek_to_first`
      yields exactly the pairs that were added, in order, and then stops;
      with nothing added, the iterator is invalid from the start. */
  lemma BuiltTableScansInput(codec: BlockCodec, blocks: seq<Block>, metas: seq<BlockMeta>,
                             added: seq<Entry>, encodeMetas: seq<BlockMeta> -> seq<byte>, fuel: nat)
    requires Built(codec, blocks, metas, added)
    requires RoundTrips(codec)
    requires fuel >= |added|
    ensures var t := Layout(Concat(Encodings(codec, blocks)), metas, encodeMetas);
            TableOk(t) && Scan(t, codec, SeekToFirstInner(t, codec), fuel) == added
  {
    LayoutReadsBack(codec, blocks, metas, encodeMetas);
    var t := Layout(Concat(Encodings(codec, blocks)), metas, encodeMetas);
    if added == [] {
      // Nothing was added: the one block `build` still emits is empty.
      InvalidOnEmptyTable(t, codec, SeekToFirstInner(t, codec));
    } else {
      FullScan(t, codec, fuel);
    }
  }

  /** With non-empty keys, every meta records its block's first key. */
  lemma BuiltFirstKeys(codec: BlockCodec, blocks: seq<Block>, metas: seq<BlockMeta>, added: seq<Entry>, i: nat)
    requires Built(codec, blocks, metas, added) && added != [] && NonEmptyKeys(added)
    requires i < |blocks|
    ensures blocks[i] != [] && metas[i].firstKey == blocks[i][0].key
  {
    ConcatAt(blocks, i, 0);
    assert blocks[i][0].key != [];
  }

  /** From strictly ascending input, the recorded first keys strictly ascend. */
  lemma BuiltFirstKeysAscend(codec: BlockCodec, blocks: seq<Block>, metas: seq<BlockMeta>,
                             added: seq<Entry>, i: nat, j: nat)
    requires Built(codec, blocks, metas, added) && added != [] && NonEmptyKeys(added)
    requires Sorted(added)
    requires i < j < |metas|
    ensures KeyLt(metas[i].firstKey, metas[j].firstKey)
  {
    BuiltFirstKeys(codec, blocks, metas, added, i);
    BuiltFirstKeys(codec, blocks, metas, added, j);
    ConcatAt(blocks, i, 0);
    ConcatAt(blocks, j, 0);
    PrefixMonotone(blocks, i + 1, j);
    PrefixStep(blocks, i);
  }

  /** Seek correctness on a built table: from strictly ascending, non-empty
      keys, `seek_to_key(key)` lands on the first added pair whose key is
      `>= key`, and is invalid exactly when every added key is smaller (in
      particular, always when nothing was added). */
  lemma BuiltTableSeeks(codec: BlockCodec, blocks: seq<Block>, metas: seq<BlockMeta>,
                        added: seq<Entry>, encodeMetas: seq<BlockMeta> -> seq<byte>, key: Key)
    requires Built(codec, blocks, metas, added) && NonEmptyKeys(added)
    requires Sorted(added)
    requires RoundTrips(codec)
    ensures var t := Layout(Concat(Encodings(codec, blocks)), metas, encodeMetas);
            && TableOk(t)
            && Position(t, codec, SeekToKeyInner(t, codec, key)) == LowerBound(added, key)
            && (SeekToKeyInner(t, codec, key).blkIter.IsValid() <==> LowerBound(added, key) < |added|)
  {
    LayoutReadsBack(codec, blocks, metas, encodeMetas);
    var t := Layout(Concat(Encodings(codec, blocks)), metas, encodeMetas);
    if added == [] {
      InvalidOnEmptyTable(t, codec, SeekToKeyInner(t, codec, key));
    } else {
      forall i | 0 <= i < |t.blockMetas| ensures t.blockMetas[i].firstKey == Blocks(t, codec)[i][0].key {
        BuiltFirstKeys(codec, blocks, metas, added, i);
      }
      assert WellFormed(t, codec);
      SeekToKeyFindsLowerBound(t, codec, key);
    }
  }
}
