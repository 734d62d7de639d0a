# SSTable builder and iterator of mini-lsm, in Dafny

This project models the sorted-table (SSTable) layer of the mini-lsm storage
engine and proves properties of the model. It has two parts:

- `SsTableBuilder` (`builder.dfy`) takes key-value pairs in order and packs
  them into the pending block. When that block is full, the builder retires
  it: it records a `BlockMeta { offset, first_key }` and appends the encoded
  bytes to `data`. `build` finishes the last block and lays out the file as
  `data ++ encoded metas ++ u32(meta_offset)`.
- `SsTableIterator` (`iterator.dfy`) is a block index plus a cursor inside
  that block, and it presents the table as one ascending sequence. The pure
  parts, `seek_to_first_inner` and `seek_to_key_inner`, are functions. The
  in-place `seek_to_first`, `seek_to_key` and `next` are methods of a class
  with the fields `blk_idx` and `blk_iter`.

Supporting modules:

- `bytes.dfy`: bytes and the big-endian u32 footer.
- `keys.dfy`: keys as byte strings, ordered lexicographically as Rust orders `&[u8]`.
- `seqs.dfy`: concatenation of blocks and of their encodings.
- `block.dfy`: the block layer the table consumes. A block is modelled as its
  sequence of entries, and a `BlockIterator` as a position in it.
- `table.dfy`: `BlockMeta`, the `SsTable` handle, `find_block_idx` and reading one block.
- `build_then_read.dfy`: what the iterator sees in a table the builder wrote.

The block codec is a parameter of the model, not an implementation of it. It
has three parts:

- the capacity rule of `BlockBuilder::add`. An empty builder always takes the
  pair; the `assert!` in `add` relies on this.
- `encode`.
- `decode`.

`read_block_cached(i)` is modelled as decoding the byte range of block `i`,
which runs from `offset_i` to the next block's offset, or to the meta offset
for the last block. If decoding inverts encoding, the blocks read back from a
built table are exactly the blocks the builder retired (`LayoutReadsBack`).
From this follow two end-to-end facts:

- a full scan of a built table yields the pairs that were added;
- a seek lands on the first added pair whose key is `>= key`.

Three behaviours of the code that the model keeps as written:

- `build` calls `finish_block` unconditionally (builder.rs:82). A builder with
  no `add`s therefore emits one meta, with offset 0 and an empty first key,
  for an empty block. `seek_to_first` on that table reads block 0 and is
  immediately invalid, and so is every seek (`InvalidOnEmptyTable`,
  `BuiltTableScansInput`, `BuiltTableSeeks`).
- `add` sets `first_key` before it tries the pending block (builder.rs:41-43),
  and only while `first_key` is empty. So `first_key` is empty exactly when
  the pending block is empty only when every key is non-empty
  (`FirstKeyOfNonEmptyKeys`). If every key in the pending block is empty,
  the retired block is recorded with the key of the pair that overflowed it.
- Offsets strictly increase only when every block encoding is non-empty
  (`MetaOffsetsAscending`).

## Model

| member | source | states |
|---|---|---|
| `Bytes.DecodeEncodeU32` | mini-lsm-starter/src/table/builder.rs:86 | the u32 footer written by `put_u32` reads back as the offset it encodes, for offsets below 2^32 |
| `Bytes.EncodeDecodeU32` | mini-lsm-starter/src/table/builder.rs:86 | every four-byte footer is the encoding of the offset it decodes to |
| `Bytes.EncodeU32` | mini-lsm-starter/src/table/builder.rs:86 | `put_u32` writes four bytes, most significant first; `DecodeEncodeU32` reads them back |
| `Keys.KeyLt` | mini-lsm-starter/src/table/iterator.rs:63 | the order on keys that `>=` in "first pair >= key" refers to: Rust's lexicographic order on `&[u8]`, bytes compared from the first, a proper prefix first |
| `Keys.KeyLe` | mini-lsm-starter/src/table/iterator.rs:63 | `<=` on keys: equal, or `KeyLt` |
| `Keys.KeyLtIrreflexive` | mini-lsm-starter/src/table/iterator.rs:63 | no key is smaller than itself |
| `Keys.KeyLtTransitive` | mini-lsm-starter/src/table/iterator.rs:63 | the key order is transitive |
| `Keys.KeyLtTotal` | mini-lsm-starter/src/table/iterator.rs:63 | any two distinct keys are ordered one way or the other, so the order is a strict total order |
| `Keys.KeyLtNotLe` | mini-lsm-starter/src/table/iterator.rs:63 | `a < b` exactly when not `b <= a` |
| `Block.LowerBound` | mini-lsm-starter/src/table/iterator.rs:52 | the block cursor's seek gives the first index whose key is `>= key`: all keys before it are smaller, and the one there is not |
| `Block.LowerBoundUnique` | mini-lsm-starter/src/table/iterator.rs:63 | in a sorted sequence, a position whose predecessor is `< key` and whose entry is `>= key` is the lower bound |
| `Block.LowerBoundIsSmallest` | mini-lsm-starter/src/table/iterator.rs:63 | the entry at the lower bound has the smallest key among those `>= key` |
| `Block.LowerBoundInside` | mini-lsm-starter/src/table/iterator.rs:53 | the block cursor's seek stays inside the block exactly when some key there is `>= key` |
| `Block.BlockCursor.IsValid` | mini-lsm-starter/src/table/iterator.rs:107 | a block cursor is valid while its position is inside its block |
| `Block.BlockCursor.Current` | mini-lsm-starter/src/table/iterator.rs:96-103 | a valid cursor shows the entry at its position, whose key and value `key`/`value` return |
| `Block.BlockCursor.Next` | mini-lsm-starter/src/table/iterator.rs:113 | `BlockIterator::next` moves one entry forward in the same block |
| `Block.CursorAtFirst` | mini-lsm-starter/src/table/iterator.rs:26 | `create_and_seek_to_first` on a block is valid iff the block has an entry, and then it is on the first one |
| `Block.CursorAtKey` | mini-lsm-starter/src/table/iterator.rs:52 | `create_and_seek_to_key` passes only keys smaller than `key`, stops on one `>= key`, and is valid exactly when the block holds some key `>= key` |
| `Table.NumOfBlocks` | mini-lsm-starter/src/table/iterator.rs:55 | `num_of_blocks` is the number of block metas |
| `Table.ReadBlock` | mini-lsm-starter/src/table/iterator.rs:52 | `read_block_cached(i)` decodes the bytes from block `i`'s offset to the next block's offset, or to the meta offset for the last block; the range is proved to lie in the data region |
| `Table.Blocks` | mini-lsm-starter/src/table/iterator.rs:57 | one decoded block per meta, block `i` being what `read_block_cached(i)` returns |
| `Table.FindBlockIdx` | mini-lsm-starter/src/table/iterator.rs:50 | the block picked for a key is in range; it is the last one whose first key is `<= key`, or block 0 when every first key is larger |
| `Builder.FirstNonEmptyKeyAppend` | mini-lsm-starter/src/table/builder.rs:41-43 | adding a pair sets the tracked first key exactly when none was set, and otherwise leaves it |
| `Builder.FirstKeyOfNonEmptyKeys` | mini-lsm-starter/src/table/builder.rs:41-53 | with non-empty keys, `first_key` is non-empty iff the pending block holds entries, and then it is that block's first key |
| `Builder.MetaOffsetsAscending` | mini-lsm-starter/src/table/builder.rs:59-65 | meta offsets start at 0 and never decrease; they strictly increase past a block whose encoding is non-empty |
| `Builder.FinishKeepsFraming` | mini-lsm-starter/src/table/builder.rs:56-66 | retiring a block records its offset as the old data length and appends its encoding, keeping every offset equal to the cumulative encoded size before it |
| `Builder.AcceptKeepsInv` | mini-lsm-starter/src/table/builder.rs:41-47 | when the pending block takes the pair, the finished blocks followed by the pending ones are still exactly the added pairs, and the first key is still tracked |
| `Builder.RolloverKeepsInv` | mini-lsm-starter/src/table/builder.rs:49-53 | when the pending block is full, retiring it and starting a new one with the pair preserves content, framing and first-key tracking |
| `Builder.BuildKeepsContent` | mini-lsm-starter/src/table/builder.rs:82 | after the final `finish_block`, the finished blocks hold exactly the added pairs, none is empty when a pair was added, and each meta records its block's first key |
| `Builder.Layout` | mini-lsm-starter/src/table/builder.rs:83-86 | the buffer `build` assembles: the data region, then the encoded metas, then a four-byte footer that decodes to the data length, which is also the meta offset |
| `Builder.LayoutFrames` | mini-lsm-starter/src/table/builder.rs:82-93 | in the laid-out file every block's byte range holds exactly its encoding and lies in the data region; the meta offset is the data length; the footer decodes to it |
| `Builder.LayoutReadsBack` | mini-lsm-starter/src/table/builder.rs:82-93 | reading the laid-out table block by block with a decoder that inverts the encoder yields the retired blocks |
| `Builder.SsTableBuilder.constructor` | mini-lsm-starter/src/table/builder.rs:28-36 | a fresh builder has empty `meta`, `data`, `first_key` and pending block, and satisfies the invariant |
| `Builder.SsTableBuilder.AddToBlock` | mini-lsm-starter/src/table/builder.rs:45 | the pending block takes the pair iff the capacity rule accepts it, and is unchanged otherwise |
| `Builder.SsTableBuilder.Add` | mini-lsm-starter/src/table/builder.rs:40-54 | keeps the invariant and records the pair. If the block accepts the pair, only the pending block and `first_key` change. Otherwise exactly one meta is appended with the old data length and first key, `data` grows by the encoded block, and the new pending block is just the pair with `first_key == key`. `estimated_size` does not decrease |
| `Builder.SsTableBuilder.FinishBlock` | mini-lsm-starter/src/table/builder.rs:56-66 | appends one meta with `offset == old data.len()` and the old first key, grows `data` by the encoded block, and empties `first_key` and the pending block |
| `Builder.SsTableBuilder.EstimatedSize` | mini-lsm-starter/src/table/builder.rs:70-72 | the estimated size is the encoded size of the finished blocks only |
| `Builder.SsTableBuilder.Build` | mini-lsm-starter/src/table/builder.rs:76-96 | finishes the last block and returns the table `data ++ encode(meta) ++ be_u32(data.len())` with `block_meta_offset == data.len()`. The footer decodes to that offset, every block range holds its encoding, and the blocks hold exactly the added pairs |
| `TableIterator.CurrentIsEntryAt` | mini-lsm-starter/src/table/iterator.rs:96-103 | a valid cursor on block `blk_idx` shows the entry of the table's flat sequence at its position |
| `TableIterator.ValidIffInside` | mini-lsm-starter/src/table/iterator.rs:106-108 | with no empty block, the iterator is valid exactly while its position is inside the table |
| `TableIterator.InvalidOnEmptyTable` | mini-lsm-starter/src/table/iterator.rs:23-28 | on a table with no entries, such as the one `build` writes when nothing was added, every reachable state is invalid and at position 0 |
| `TableIterator.SeekToFirstInner` | mini-lsm-starter/src/table/iterator.rs:23-28 | seeks to block 0, at position 0 of the table; valid iff block 0 has an entry |
| `TableIterator.SeekToKeyInner` | mini-lsm-starter/src/table/iterator.rs:49-61 | the resulting state is reachable and `blk_idx <= num_of_blocks`; with no empty block, an invalid result has `blk_idx == num_of_blocks` |
| `TableIterator.Advance` | mini-lsm-starter/src/table/iterator.rs:112-124 | `next` keeps the iterator in a reachable state: on block `blk_idx` inside the table, invalid past its end |
| `TableIterator.AdvanceMovesOne` | mini-lsm-starter/src/table/iterator.rs:112-124 | with no empty block, `next` on a valid iterator moves exactly one entry forward in the table, into the next block at a block boundary |
| `TableIterator.ScanYieldsRest` | mini-lsm-starter/src/table/iterator.rs:112-124 | reading and calling `next` while valid yields the rest of the table from the current position, and then stops |
| `TableIterator.FullScan` | mini-lsm-starter/src/table/iterator.rs:23-28 | from `seek_to_first`, repeated `next` yields the concatenation of all blocks in order, and is invalid afterwards |
| `TableIterator.SeekInsideBlock` | mini-lsm-starter/src/table/iterator.rs:49-52 | if the chosen block has an entry `>= key`, the cursor there is at the table's lower bound |
| `TableIterator.SeekCrossesToNextBlock` | mini-lsm-starter/src/table/iterator.rs:53-58 | if the chosen block has no entry `>= key` and a next block exists, that block's first entry is the table's lower bound |
| `TableIterator.SeekPastLastBlock` | mini-lsm-starter/src/table/iterator.rs:53-60 | if the last block has no entry `>= key`, no entry of the table is `>= key` |
| `TableIterator.SeekToKeyInnerCases` | mini-lsm-starter/src/table/iterator.rs:49-61 | `seek_to_key_inner` ends in one of three outcomes: in the chosen block at its lower bound, at the first entry of the next block, or past the last block and invalid |
| `TableIterator.SeekOnBlocks` | mini-lsm-starter/src/table/iterator.rs:49-61 | on blocks laid out as the builder does it, each of those outcomes stands at the first entry `>= key` of the whole table, and is valid exactly when there is one |
| `TableIterator.SeekToKeyFindsLowerBound` | mini-lsm-starter/src/table/iterator.rs:49-61 | on a well-formed table, `seek_to_key` stops at the first entry `>= key` and is invalid exactly when there is none |
| `TableIterator.SeekToKeyLandsOnSmallestNotBelow` | mini-lsm-starter/src/table/iterator.rs:74-91 | after `seek_to_key(key)` the current key is the smallest stored key `>= key` |
| `TableIterator.SeekBetweenBlocksExample` | mini-lsm-starter/src/table/iterator.rs:76-85 | with blocks `[a,b,c]` and `[e,f,g]`, seeking `d` lands on `e` in block 1 |
| `TableIterator.SsTableIterator.CreateAndSeekToFirst` | mini-lsm-starter/src/table/iterator.rs:30-38 | a new iterator is in the state `seek_to_first_inner` computes |
| `TableIterator.SsTableIterator.CreateAndSeekToKey` | mini-lsm-starter/src/table/iterator.rs:64-72 | a new iterator is in the state `seek_to_key_inner` computes |
| `TableIterator.SsTableIterator.SeekToFirst` | mini-lsm-starter/src/table/iterator.rs:41-46 | sets `blk_idx` and `blk_iter` to the result of `seek_to_first_inner` |
| `TableIterator.SsTableIterator.SeekToKey` | mini-lsm-starter/src/table/iterator.rs:86-91 | sets `blk_iter` and `blk_idx` to the result of `seek_to_key_inner` |
| `TableIterator.SsTableIterator.Key` | mini-lsm-starter/src/table/iterator.rs:96-98 | the key is that of the table entry at the iterator's position |
| `TableIterator.SsTableIterator.Value` | mini-lsm-starter/src/table/iterator.rs:101-103 | the value is that of the table entry at the iterator's position |
| `TableIterator.SsTableIterator.IsValid` | mini-lsm-starter/src/table/iterator.rs:106-108 | with no empty block, valid iff entries remain at the iterator's position |
| `TableIterator.SsTableIterator.Next` | mini-lsm-starter/src/table/iterator.rs:112-124 | advances the block cursor; at a block's end, it moves to the first entry of block `blk_idx + 1` if that exists, else it becomes invalid |
| `BuildThenRead.BuiltTableScansInput` | mini-lsm-starter/src/table/builder.rs:40-96 | scanning a built table from `seek_to_first` yields exactly the added pairs, in order, and then stops; with nothing added it yields nothing |
| `BuildThenRead.BuiltFirstKeys` | mini-lsm-starter/src/table/builder.rs:59-64 | with non-empty keys, every recorded first key is its block's first key |
| `BuildThenRead.BuiltFirstKeysAscend` | mini-lsm-starter/src/table/builder.rs:59-64 | from strictly ascending input, the recorded first keys strictly ascend |
| `BuildThenRead.BuiltTableSeeks` | mini-lsm-starter/src/table/iterator.rs:49-61 | on a table built from strictly ascending non-empty keys, `seek_to_key` lands on the first added pair `>= key`, or is invalid when there is none, which is always the case when nothing was added |

## Left out

- Persistence is I/O and is left out: `FileObject::create` and the `path` and `id` arguments of `build`. The file is the byte sequence kept in `SsTable.file`.
- The block cache and `Arc` sharing are left out. Reading a block is a pure decode of its byte range, with no concurrency.
- `anyhow::Result` errors come only from I/O, so the model is total. A table must have at least one block (`TableOk`). A built table always has one; otherwise `read_block_cached(0)` is the error path.
- The block encoding is not part of this model. `BlockBuilder`'s size rule, `Block::encode` and `Block::decode` are parameters, and so is `BlockMeta::encode_block_meta`. No meta round trip is claimed beyond the u32 footer.
- The source of `SsTable::find_block_idx`, `num_of_blocks` and `read_block_cached` (the table module) is not part of this model; they are modelled from how the iterator uses them. `FindBlockIdx` is defined by its contract through a linear search from the end, not a binary search.
- `build_for_test` is left out.
- Builder.SsTableBuilder.Build: the `as u32` cast of the meta offset is a precondition (`data.len() < 2^32`). Truncation is not modelled.
- TableIterator.SsTableIterator.Next: `blk_idx` is an unbounded natural, so `usize` overflow after repeated `next` on an exhausted iterator is not modelled.
- Builder.SsTableBuilder.Build: for a block whose keys are all empty, the postcondition does not say which first key was recorded. `Add` states it exactly for each step.
- TableIterator.SeekToKeyFindsLowerBound: it assumes strictly ascending keys. With duplicate keys across a block boundary, the seek is not claimed to reach the first duplicate.
