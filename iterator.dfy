/** `SsTableIterator` (mini-lsm-starter/src/table/iterator.rs): a block
    index plus a cursor inside that block, presenting the whole table as one
    ascending sequence of entries. */
module TableIterator {
  import opened Keys
  import opened Seqs
  import opened Block
  import opened Table

  /** The iterator's state: `(blk_idx, blk_iter)`. */
  datatype State = State(blkIdx: nat, blkIter: BlockCursor)

  /** All entries of the table, block after block. */
  function Entries(t: SsTable, codec: BlockCodec): seq<Entry>
    requires TableOk(t)
  {
    Concat(Blocks(t, codec))
  }

  /** Reachable states: inside the table the cursor is on block `blkIdx` and is
      valid unless that block is empty; past the last block it is invalid. */
  ghost predicate StateOk(t: SsTable, codec: BlockCodec, s: State)
    requires TableOk(t)
  {
    var bs := Blocks(t, codec);
    && (s.blkIdx < |bs| ==>
          && s.blkIter.entries == bs[s.blkIdx]
          && (s.blkIter.IsValid() || (s.blkIter.pos == 0 && bs[s.blkIdx] == [])))
    && (s.blkIdx >= |bs| ==> !s.blkIter.IsValid())
  }

  /** Where a state stands in `Entries`: the entries of the blocks before it
      plus the cursor's position, or the end once past the last block. */
  ghost function Position(t: SsTable, codec: BlockCodec, s: State): nat
    requires TableOk(t)
  {
    var bs := Blocks(t, codec);
    if s.blkIdx < |bs| then Prefix(bs, s.blkIdx) + s.blkIter.pos else |Concat(bs)|
  }

  /** A valid cursor shows the entry of `Entries` at its position. */
  lemma CurrentIsEntryAt(t: SsTable, codec: BlockCodec, s: State)
    requires TableOk(t) && StateOk(t, codec, s) && s.blkIter.IsValid()
    ensures Position(t, codec, s) < |Entries(t, codec)|
    ensures Entries(t, codec)[Position(t, codec, s)] == s.blkIter.Current()
  {
    ConcatAt(Blocks(t, codec), s.blkIdx, s.blkIter.pos);
  }

  /** When no block is empty, a state is valid exactly while its position is
      inside `Entries`. */
  lemma ValidIffInside(t: SsTable, codec: BlockCodec, s: State)
    requires TableOk(t) && StateOk(t, codec, s)
    ensures NoEmptyBlocks(Blocks(t, codec)) ==>
              (s.blkIter.IsValid() <==> Position(t, codec, s) < |Entries(t, codec)|)
  {
    var bs := Blocks(t, codec);
    if s.blkIdx < |bs| {
      ConcatSlice(bs, s.blkIdx);
    }
  }

  /** A table with no entries (what `build` writes when nothing was added:
      one empty block): every reachable state is invalid and stands at 0. */
  lemma InvalidOnEmptyTable(t: SsTable, codec: BlockCodec, s: State)
    requires TableOk(t) && StateOk(t, codec, s) && Entries(t, codec) == []
    ensures Position(t, codec, s) == 0 && !s.blkIter.IsValid()
  {
    var bs := Blocks(t, codec);
    if s.blkIdx < |bs| {
      ConcatSlice(bs, s.blkIdx);
    }
  }

  /** `seek_to_first_inner`: block 0, at its first entry. */
  function SeekToFirstInner(t: SsTable, codec: BlockCodec): (s: State)
    requires TableOk(t)
    ensures s.blkIdx == 0 && StateOk(t, codec, s) && Position(t, codec, s) == 0
    ensures s.blkIter.IsValid() <==> Blocks(t, codec)[0] != []
  {
    State(0, CursorAtFirst(ReadBlock(t, codec, 0)))
  }

  /** `seek_to_key_inner`: seek inside the block that `find_block_idx`
      picks and, when every key there is smaller, move on to the next block. */
  function SeekToKeyInner(t: SsTable, codec: BlockCodec, key: Key): (s: State)
    requires TableOk(t)
    ensures StateOk(t, codec, s)
    ensures s.blkIdx <= NumOfBlocks(t)
    ensures NoEmptyBlocks(Blocks(t, codec)) && !s.blkIter.IsValid() ==> s.blkIdx == NumOfBlocks(t)
  {
    var blkIdx := FindBlockIdx(t.blockMetas, key);
    var blkIter := CursorAtKey(ReadBlock(t, codec, blkIdx), key);
    if !blkIter.IsValid() then
      if blkIdx + 1 < NumOfBlocks(t) then
        State(blkIdx + 1, CursorAtFirst(ReadBlock(t, codec, blkIdx + 1)))
      else
        State(blkIdx + 1, blkIter)
    else
      State(blkIdx, blkIter)
  }

  /** `next`: advance the block cursor and, at the end of a block, load the
      next block at its first entry if there is one. */
  function Advance(t: SsTable, codec: BlockCodec, s: State): (r: State)
    requires TableOk(t)
    ensures StateOk(t, codec, s) ==> StateOk(t, codec, r)
  {
    var blkIter := s.blkIter.Next();
    if !blkIter.IsValid() then
      if s.blkIdx + 1 < NumOfBlocks(t) then
        State(s.blkIdx + 1, CursorAtFirst(ReadBlock(t, codec, s.blkIdx + 1)))
      else
        State(s.blkIdx + 1, blkIter)
    else
      State(s.blkIdx, blkIter)
  }

  /** When no block is empty, `next` on a valid iterator moves exactly one
      entry forward in `Entries`, across a block boundary if need be. */
  lemma AdvanceMovesOne(t: SsTable, codec: BlockCodec, s: State)
    requires TableOk(t) && StateOk(t, codec, s) && s.blkIter.IsValid()
    requires NoEmptyBlocks(Blocks(t, codec))
    ensures Position(t, codec, Advance(t, codec, s)) == Position(t, codec, s) + 1
  {
    var bs := Blocks(t, codec);
    PrefixStep(bs, s.blkIdx);
    if s.blkIdx + 1 == |bs| {
      PrefixAll(bs);
    }
  }

  /** The entries an iterator yields from state `s` by reading the current
      entry and calling `next` while it is valid, at most `fuel` times. */
  ghost function Scan(t: SsTable, codec: BlockCodec, s: State, fuel: nat): seq<Entry>
    requires TableOk(t)
    decreases fuel
  {
    if fuel == 0 || !s.blkIter.IsValid() then []
    else [s.blkIter.Current()] + Scan(t, codec, Advance(t, codec, s), fuel - 1)
  }

  /** Scanning from any reachable state yields the rest of `Entries`, and
      then stops: more fuel adds nothing. */
  lemma {:induction false} ScanYieldsRest(t: SsTable, codec: BlockCodec, s: State, fuel: nat)
    requires TableOk(t) && StateOk(t, codec, s) && NoEmptyBlocks(Blocks(t, codec))
    requires Position(t, codec, s) + fuel >= |Entries(t, codec)|
    ensures Position(t, codec, s) <= |Entries(t, codec)|
    ensures Scan(t, codec, s, fuel) == Entries(t, codec)[Position(t, codec, s)..]
    decreases fuel
  {
    var p := Position(t, codec, s);
    var es := Entries(t, codec);
    ValidIffInside(t, codec, s);
    if s.blkIdx < |Blocks(t, codec)| {
      ConcatSlice(Blocks(t, codec), s.blkIdx);
    }
    if s.blkIter.IsValid() {
      CurrentIsEntryAt(t, codec, s);
      AdvanceMovesOne(t, codec, s);
      ScanYieldsRest(t, codec, Advance(t, codec, s), fuel - 1);
      assert es[p..] == [es[p]] + es[p + 1..];
    }
  }

  /** Full scan: from `seek_to_first`, repeated `next` yields every entry of
      every block, in order, and the iterator is invalid after the last one. */
  lemma FullScan(t: SsTable, codec: BlockCodec, fuel: nat)
    requires TableOk(t) && NoEmptyBlocks(Blocks(t, codec))
    requires fuel >= |Entries(t, codec)|
    ensures Scan(t, codec, SeekToFirstInner(t, codec), fuel) == Entries(t, codec)
  {
    ScanYieldsRest(t, codec, SeekToFirstInner(t, codec), fuel);
  }

  /** Blocks as the builder lays them out: one meta per block, no empty
      block, each meta's first key is its block's first key, and keys
      strictly ascend across the whole table. */
  ghost predicate BlocksWellFormed(bs: seq<Block>, metas: seq<BlockMeta>)
  {
    && |bs| == |metas| >= 1
    && NoEmptyBlocks(bs)
    && (forall i :: 0 <= i < |metas| ==> metas[i].firstKey == bs[i][0].key)
    && Sorted(Concat(bs))
  }

  /** A table laid out as the builder does it. */
  ghost predicate WellFormed(t: SsTable, codec: BlockCodec)
  {
    TableOk(t) && BlocksWellFormed(Blocks(t, codec), t.blockMetas)
  }

  /** Seek inside the chosen block, when it holds a key `>= key`: every block
      before it starts with a smaller key, so the table's lower bound is there. */
  lemma SeekInsideBlock(bs: seq<Block>, key: Key, i: nat)
    requires i < |bs| && NoEmptyBlocks(bs) && Sorted(Concat(bs))
    requires i == 0 || KeyLe(bs[i][0].key, key)
    requires LowerBound(bs[i], key) < |bs[i]|
    ensures Prefix(bs, i) + LowerBound(bs[i], key) == LowerBound(Concat(bs), key)
  {
    var es := Concat(bs);
    var lb := LowerBound(bs[i], key);
    var p := Prefix(bs, i) + lb;
    ConcatAt(bs, i, lb);
    if lb > 0 {
      ConcatAt(bs, i, lb - 1);
    } else if i > 0 {
      ConcatAt(bs, i, 0);
      KeyLtLeTransitive(es[p - 1].key, es[p].key, key);
    }
    LowerBoundUnique(es, key, p);
  }

  /** Boundary crossing: when every key of block `i` is smaller than `key` and
      the next block starts above it, the lower bound is the next block's first entry. */
  lemma SeekCrossesToNextBlock(bs: seq<Block>, key: Key, i: nat)
    requires i + 1 < |bs| && NoEmptyBlocks(bs) && Sorted(Concat(bs))
    requires LowerBound(bs[i], key) == |bs[i]|
    requires KeyLt(key, bs[i + 1][0].key)
    ensures Prefix(bs, i + 1) == LowerBound(Concat(bs), key)
  {
    PrefixStep(bs, i);
    ConcatAt(bs, i, |bs[i]| - 1);
    ConcatAt(bs, i + 1, 0);
    LowerBoundUnique(Concat(bs), key, Prefix(bs, i + 1));
  }

  /** When every key of the last block is smaller than `key`, no entry is `>= key`. */
  lemma SeekPastLastBlock(bs: seq<Block>, key: Key)
    requires |bs| >= 1 && NoEmptyBlocks(bs) && Sorted(Concat(bs))
    requires LowerBound(bs[|bs| - 1], key) == |bs[|bs| - 1]|
    ensures |Concat(bs)| == LowerBound(Concat(bs), key)
  {
    var i := |bs| - 1;
    PrefixStep(bs, i);
    PrefixAll(bs);
    ConcatAt(bs, i, |bs[i]| - 1);
    LowerBoundUnique(Concat(bs), key, |Concat(bs)|);
  }

  /** The three outcomes of `seek_to_key_inner`, read off the block `i`
      that `find_block_idx` picks: stay in it at the lower bound, move to the
      next block's first entry, or run past the last block. */
  ghost predicate SeekOutcome(bs: seq<Block>, metas: seq<BlockMeta>, key: Key, s: State)
  {
    var i := FindBlockIdx(metas, key);
    && i < |bs|
    && (LowerBound(bs[i], key) < |bs[i]| ==> s == State(i, CursorAtKey(bs[i], key)))
    && (LowerBound(bs[i], key) == |bs[i]| && i + 1 < |bs| ==> s == State(i + 1, CursorAtFirst(bs[i + 1])))
    && (LowerBound(bs[i], key) == |bs[i]| && i + 1 == |bs| ==> s.blkIdx == |bs| && !s.blkIter.IsValid())
  }

  /** `seek_to_key_inner` ends in one of its three outcomes. */
  lemma SeekToKeyInnerCases(t: SsTable, codec: BlockCodec, key: Key)
    requires TableOk(t)
    ensures SeekOutcome(Blocks(t, codec), t.blockMetas, key, SeekToKeyInner(t, codec, key))
  {
    var bs := Blocks(t, codec);
    var i := FindBlockIdx(t.blockMetas, key);
    var s := SeekToKeyInner(t, codec, key);
    assert ReadBlock(t, codec, i) == bs[i];
    var c := CursorAtKey(bs[i], key);
    if c.IsValid() {
      assert s == State(i, c);
    } else if i + 1 < |bs| {
      assert ReadBlock(t, codec, i + 1) == bs[i + 1];
      assert s == State(i + 1, CursorAtFirst(bs[i + 1]));
    } else {
      assert s == State(i + 1, c);
    }
  }

  /** Seek over the decoded blocks: on blocks laid out as the builder does it,
      whichever outcome of `seek_to_key_inner` occurs stands at the lower
      bound of all entries, and is valid exactly when some entry is `>= key`. */
  lemma SeekOnBlocks(bs: seq<Block>, metas: seq<BlockMeta>, key: Key, s: State)
    requires BlocksWellFormed(bs, metas) && SeekOutcome(bs, metas, key, s)
    ensures var lb := LowerBound(Concat(bs), key);
            && (s.blkIdx < |bs| ==> Prefix(bs, s.blkIdx) + s.blkIter.pos == lb)
            && (s.blkIdx >= |bs| ==> |Concat(bs)| == lb)
            && (s.blkIter.IsValid() <==> lb < |Concat(bs)|)
  {
    var i := FindBlockIdx(metas, key);
    if LowerBound(bs[i], key) < |bs[i]| {
      if i > 0 {
        KeyLtNotLe(key, metas[i].firstKey);
      }
      SeekInsideBlock(bs, key, i);
      ConcatSlice(bs, i);
    } else if i + 1 < |bs| {
      assert KeyLt(key, metas[i + 1].firstKey);
      SeekCrossesToNextBlock(bs, key, i);
      ConcatSlice(bs, i + 1);
    } else {
      SeekPastLastBlock(bs, key);
    }
  }

  /** Seek correctness: `seek_to_key(key)` stops at the first entry of the
      table whose key is `>= key`, and is invalid exactly when there is none. */
  lemma SeekToKeyFindsLowerBound(t: SsTable, codec: BlockCodec, key: Key)
    requires WellFormed(t, codec)
    ensures Position(t, codec, SeekToKeyInner(t, codec, key)) == LowerBound(Entries(t, codec), key)
    ensures SeekToKeyInner(t, codec, key).blkIter.IsValid() <==>
              LowerBound(Entries(t, codec), key) < |Entries(t, codec)|
  {
    SeekToKeyInnerCases(t, codec, key);
    SeekOnBlocks(Blocks(t, codec), t.blockMetas, key, SeekToKeyInner(t, codec, key));
  }

  /** The key the iterator holds after `seek_to_key(key)` is the smallest
      stored key `>= key`. */
  lemma SeekToKeyLandsOnSmallestNotBelow(t: SsTable, codec: BlockCodec, key: Key)
    requires WellFormed(t, codec)
    requires SeekToKeyInner(t, codec, key).blkIter.IsValid()
    ensures KeyLe(key, SeekToKeyInner(t, codec, key).blkIter.Current().key)
    ensures forall e :: e in Entries(t, codec) && KeyLe(key, e.key) ==>
              KeyLe(SeekToKeyInner(t, codec, key).blkIter.Current().key, e.key)
  {
    var s := SeekToKeyInner(t, codec, key);
    SeekToKeyFindsLowerBound(t, codec, key);
    CurrentIsEntryAt(t, codec, s);
    LowerBoundIsSmallest(Entries(t, codec), key);
  }

  /** The example of the `seek_to_key` documentation: with blocks `[a, b, c]`
      and `[e, f, g]`, seeking `d` crosses into the second block and lands on
      `e`, rather than reporting the table exhausted or stopping at `c`. */
  lemma SeekBetweenBlocksExample(t: SsTable, codec: BlockCodec)
    requires TableOk(t)
    requires Blocks(t, codec) == [[Entry([97], []), Entry([98], []), Entry([99], [])],
                                  [Entry([101], []), Entry([102], []), Entry([103], [])]]
    requires |t.blockMetas| == 2 && t.blockMetas[0].firstKey == [97] && t.blockMetas[1].firstKey == [101]
    ensures SeekToKeyInner(t, codec, [100]).blkIdx == 1
    ensures SeekToKeyInner(t, codec, [100]).blkIter.IsValid()
    ensures SeekToKeyInner(t, codec, [100]).blkIter.Current() == Entry([101], [])
  {
    var bs := Blocks(t, codec);
    var d: Key := [100];
    assert KeyLt(d, t.blockMetas[1].firstKey);
    assert FindBlockIdx(t.blockMetas, d) == 0 by {
      assert t.blockMetas[..1][..0] == [];
    }
    assert ReadBlock(t, codec, 0) == bs[0];
    assert LowerBound(bs[0], d) == 3 by {
      assert KeyLt(bs[0][0].key, d) && KeyLt(bs[0][1].key, d) && KeyLt(bs[0][2].key, d);
      KeyLtNotLe(bs[0][0].key, d);
      KeyLtNotLe(bs[0][1].key, d);
      KeyLtNotLe(bs[0][2].key, d);
      assert bs[0][1..][1..][1..] == [];
    }
    assert ReadBlock(t, codec, 1) == bs[1];
  }

  /** An iterator over one table. */
  class SsTableIterator {
    const table: SsTable
    const codec: BlockCodec
    var blkIter: BlockCursor
    var blkIdx: nat

    ghost predicate Valid()
      reads this
    {
      TableOk(table) && StateOk(table, codec, State(blkIdx, blkIter))
    }

    /** Where the iterator stands in the table's entries. */
    ghost function Cursor(): nat
      reads this
      requires Valid()
    {
      Position(table, codec, State(blkIdx, blkIter))
    }

    /** `create_and_seek_to_first`. */
    constructor CreateAndSeekToFirst(table: SsTable, codec: BlockCodec)
      requires TableOk(table)
      ensures this.table == table && this.codec == codec && Valid()
      ensures State(blkIdx, blkIter) == SeekToFirstInner(table, codec)
    {
      var s := SeekToFirstInner(table, codec);
      this.blkIter := s.blkIter;
      this.blkIdx := s.blkIdx;
      this.table := table;
      this.codec := codec;
    }

    /** `create_and_seek_to_key`. */
    constructor CreateAndSeekToKey(table: SsTable, codec: BlockCodec, key: Key)
      requires TableOk(table)
      ensures this.table == table && this.codec == codec && Valid()
      ensures State(blkIdx, blkIter) == SeekToKeyInner(table, codec, key)
    {
      var s := SeekToKeyInner(table, codec, key);
      this.blkIter := s.blkIter;
      this.table := table;
      this.codec := codec;
      this.blkIdx := s.blkIdx;
    }

    /** `seek_to_first`. */
    method SeekToFirst()
      requires Valid()
      modifies this
      ensures Valid()
      ensures State(blkIdx, blkIter) == SeekToFirstInner(table, codec)
    {
      var s := SeekToFirstInner(table, codec);
      blkIdx := s.blkIdx;
      blkIter := s.blkIter;
    }

    /** `seek_to_key`. */
    method SeekToKey(key: Key)
      requires Valid()
      modifies this
      ensures Valid()
      ensures State(blkIdx, blkIter) == SeekToKeyInner(table, codec, key)
    {
      var s := SeekToKeyInner(table, codec, key);
      blkIter := s.blkIter;
      blkIdx := s.blkIdx;
    }

    /** `key`: the key of the entry the iterator stands on. */
    function Key(): (k: Keys.Key)
      reads this
      requires Valid() && IsValid()
      ensures Cursor() < |Entries(table, codec)| && k == Entries(table, codec)[Cursor()].key
    {
      CurrentIsEntryAt(table, codec, State(blkIdx, blkIter));
      blkIter.Current().key
    }

    /** `value`: the value of the entry the iterator stands on. */
    function Value(): (v: Keys.Value)
      reads this
      requires Valid() && IsValid()
      ensures Cursor() < |Entries(table, codec)| && v == Entries(table, codec)[Cursor()].value
    {
      CurrentIsEntryAt(table, codec, State(blkIdx, blkIter));
      blkIter.Current().value
    }

    /** `is_valid`: with no empty block, whether entries remain from here on. */
    predicate IsValid()
      reads this
      requires Valid()
      ensures NoEmptyBlocks(Blocks(table, codec)) ==>
                (IsValid() <==> Cursor() < |Entries(table, codec)|)
    {
      ValidIffInside(table, codec, State(blkIdx, blkIter));
      blkIter.IsValid()
    }

    /** `next`. */
    method Next()
      requires Valid()
      modifies this
      ensures Valid()
      ensures State(blkIdx, blkIter) == Advance(table, codec, old(State(blkIdx, blkIter)))
    {
      blkIter := blkIter.Next();
      if !blkIter.IsValid() {
        blkIdx := blkIdx + 1;
        if blkIdx < NumOfBlocks(table) {
          blkIter := CursorAtFirst(ReadBlock(table, codec, blkIdx));
        }
      }
    }
  }
}
