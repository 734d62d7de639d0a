/** The block layer this table layer consumes (`crate::block`, not part of
    this model): a block is the sequence of its entries, a `BlockIterator`
    is a position inside one block, and the codec's capacity rule and byte
    layout are parameters. */
module Block {
  import opened Bytes
  import opened Keys

  datatype Entry = Entry(key: Key, value: Value)

  /** A decoded block: its entries in storage order. */
  type Block = seq<Entry>

  /** The block-level collaborators.
      `fits(blockSize, pending, key, value)`: the size rule by which a
      `BlockBuilder` already holding `pending` takes one more pair;
      `encode`: `BlockBuilder::build().encode()`;
      `decode`: `Block::decode` of a block's byte range. */
  datatype BlockCodec = BlockCodec(
    fits: (nat, Block, Key, Value) -> bool,
    encode: Block -> seq<byte>,
    decode: seq<byte> -> Block)

  /** Whether `BlockBuilder::add` takes the pair. An empty builder takes any
      pair: that is what `SsTableBuilder::add` relies on when it retries the
      pair on a fresh builder and asserts that it succeeded. */
  predicate Accepts(codec: BlockCodec, blockSize: nat, pending: Block, key: Key, value: Value)
  {
    pending == [] || codec.fits(blockSize, pending, key, value)
  }

  /** Decoding a block's bytes gives back the entries it was built from. */
  ghost predicate RoundTrips(codec: BlockCodec)
  {
    forall b: Block :: codec.decode(codec.encode(b)) == b
  }

  ghost predicate NoEmptyBlocks(blocks: seq<Block>)
  {
    forall i :: 0 <= i < |blocks| ==> blocks[i] != []
  }

  /** Strictly ascending keys. */
  ghost predicate Sorted(s: seq<Entry>)
  {
    forall i, j :: 0 <= i < j < |s| ==> KeyLt(s[i].key, s[j].key)
  }

  /** The index of the first entry whose key is `>= key`, or `|s|` when every key is smaller. */
  function LowerBound(s: seq<Entry>, key: Key): (r: nat)
    ensures r <= |s|
    ensures forall j :: 0 <= j < r ==> KeyLt(s[j].key, key)
    ensures r < |s| ==> KeyLe(key, s[r].key)
  {
    if s == [] then 0
    else if KeyLe(key, s[0].key) then 0
    else
      KeyLtNotLe(s[0].key, key);
      1 + LowerBound(s[1..], key)
  }

  /** The lower bound is inside the sequence exactly when some key is `>= key`. */
  lemma LowerBoundInside(s: seq<Entry>, key: Key)
    ensures LowerBound(s, key) < |s| <==> exists j :: 0 <= j < |s| && KeyLe(key, s[j].key)
  {
    if LowerBound(s, key) == |s| {
      forall j | 0 <= j < |s| ensures !KeyLe(key, s[j].key) {
        KeyLtNotLe(s[j].key, key);
      }
    }
  }

  /** In a sorted sequence, the first position whose predecessor is `< key`
      and whose own key is `>= key` is the lower bound. */
  lemma LowerBoundUnique(s: seq<Entry>, key: Key, p: nat)
    requires Sorted(s) && p <= |s|
    requires p == 0 || KeyLt(s[p - 1].key, key)
    requires p == |s| || KeyLe(key, s[p].key)
    ensures p == LowerBound(s, key)
  {
    var r := LowerBound(s, key);
    if p < r {
      KeyLtNotLe(s[p].key, key);
    } else if r < p {
      // key <= s[r] <= s[p - 1] < key
      if r < p - 1 {
        KeyLeLtTransitive(key, s[r].key, s[p - 1].key);
        KeyLtTransitive(key, s[p - 1].key, key);
      } else {
        KeyLeLtTransitive(key, s[r].key, key);
      }
      KeyLtIrreflexive(key);
    }
  }

  /** In a sorted sequence, the entry at the lower bound has the smallest key
      among those `>= key`. */
  lemma LowerBoundIsSmallest(s: seq<Entry>, key: Key)
    requires Sorted(s) && LowerBound(s, key) < |s|
    ensures forall e :: e in s && KeyLe(key, e.key) ==> KeyLe(s[LowerBound(s, key)].key, e.key)
  {
    var p := LowerBound(s, key);
    forall e | e in s && KeyLe(key, e.key) ensures KeyLe(s[p].key, e.key) {
      var j :| 0 <= j < |s| && s[j] == e;
      if j < p {
        KeyLtNotLe(s[j].key, key);
      }
    }
  }

  /** `BlockIterator`: a block and a position in it. */
  datatype BlockCursor = BlockCursor(entries: Block, pos: nat) {

    /** `BlockIterator::is_valid`. */
    predicate IsValid()
    {
      pos < |entries|
    }

    function Current(): Entry
      requires IsValid()
    {
      entries[pos]
    }

    /** `BlockIterator::next`. */
    function Next(): BlockCursor
    {
      BlockCursor(entries, pos + 1)
    }
  }

  /** `BlockIterator::create_and_seek_to_first`: valid iff the block has an
      entry, and then on its first one. */
  function CursorAtFirst(b: Block): (c: BlockCursor)
    ensures c.entries == b
    ensures c.IsValid() <==> b != []
    ensures c.IsValid() ==> c.Current() == b[0]
  {
    BlockCursor(b, 0)
  }

  /** `BlockIterator::create_and_seek_to_key`: the cursor passes only keys
      smaller than `key`, stops on one `>= key`, and is valid exactly when
      the block holds some key `>= key`. */
  function CursorAtKey(b: Block, key: Key): (c: BlockCursor)
    ensures c.entries == b && c.pos <= |b|
    ensures forall j :: 0 <= j < c.pos ==> KeyLt(b[j].key, key)
    ensures c.IsValid() ==> KeyLe(key, c.Current().key)
    ensures c.IsValid() <==> exists j :: 0 <= j < |b| && KeyLe(key, b[j].key)
  {
    LowerBoundInside(b, key);
    BlockCursor(b, LowerBound(b, key))
  }
}
