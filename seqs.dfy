/** Concatenation of a sequence of sequences: the data region is the
    concatenation of the encoded blocks, and the table's entries are the
    concatenation of the blocks' entries. */
module Seqs {

  function Concat<T>(ss: seq<seq<T>>): seq<T>
  {
    if ss == [] then [] else Concat(ss[..|ss| - 1]) + ss[|ss| - 1]
  }

  /** Where part `i` starts inside `Concat(ss)`. */
  function Prefix<T>(ss: seq<seq<T>>, i: nat): nat
    requires i <= |ss|
  {
    |Concat(ss[..i])|
  }

  lemma ConcatAppend<T>(ss: seq<seq<T>>, s: seq<T>)
    ensures Concat(ss + [s]) == Concat(ss) + s
  {
    assert (ss + [s])[..|ss|] == ss;
  }

  lemma {:induction false} ConcatSplit<T>(a: seq<seq<T>>, b: seq<seq<T>>)
    ensures Concat(a + b) == Concat(a) + Concat(b)
  {
    if b == [] {
      assert a + b == a;
    } else {
      var last := b[|b| - 1];
      var init := b[..|b| - 1];
      assert a + b == (a + init) + [last];
      ConcatAppend(a + init, last);
      ConcatSplit(a, init);
      ConcatAppend(init, last);
      assert init + [last] == b;
    }
  }

  /** The length of the concatenation is the sum of the parts' lengths, part by part. */
  lemma PrefixStep<T>(ss: seq<seq<T>>, i: nat)
    requires i < |ss|
    ensures Prefix(ss, i + 1) == Prefix(ss, i) + |ss[i]|
  {
    assert ss[..i + 1] == ss[..i] + [ss[i]];
    ConcatAppend(ss[..i], ss[i]);
  }

  lemma PrefixAll<T>(ss: seq<seq<T>>)
    ensures Prefix(ss, |ss|) == |Concat(ss)|
  {
    assert ss[..|ss|] == ss;
  }

  /** Part `i` occupies exactly the range `[Prefix(i), Prefix(i+1))` of the concatenation. */
  lemma ConcatSlice<T>(ss: seq<seq<T>>, i: nat)
    requires i < |ss|
    ensures Prefix(ss, i) + |ss[i]| <= |Concat(ss)|
    ensures Concat(ss)[Prefix(ss, i)..Prefix(ss, i) + |ss[i]|] == ss[i]
  {
    assert ss == ss[..i] + ([ss[i]] + ss[i + 1..]);
    ConcatSplit(ss[..i], [ss[i]] + ss[i + 1..]);
    ConcatSplit([ss[i]], ss[i + 1..]);
    assert Concat([ss[i]]) == ss[i] by {
      ConcatAppend([], ss[i]);
      assert [] + [ss[i]] == [ss[i]];
    }
  }

  lemma ConcatAt<T>(ss: seq<seq<T>>, i: nat, j: nat)
    requires i < |ss| && j < |ss[i]|
    ensures Prefix(ss, i) + j < |Concat(ss)|
    ensures Concat(ss)[Prefix(ss, i) + j] == ss[i][j]
  {
    ConcatSlice(ss, i);
    assert Concat(ss)[Prefix(ss, i)..Prefix(ss, i) + |ss[i]|][j] == ss[i][j];
  }

  /** Part starts never go backwards, and move strictly past every non-empty part. */
  lemma {:induction false} PrefixMonotone<T>(ss: seq<seq<T>>, i: nat, j: nat)
    requires i <= j <= |ss|
    ensures Prefix(ss, i) <= Prefix(ss, j)
    ensures i < j && ss[j - 1] != [] ==> Prefix(ss, i) < Prefix(ss, j)
    decreases j - i
  {
    if i < j {
      PrefixMonotone(ss, i, j - 1);
      PrefixStep(ss, j - 1);
    }
  }

  lemma PrefixOfPrefix<T>(ss: seq<seq<T>>, n: nat, i: nat)
    requires i <= n <= |ss|
    ensures Prefix(ss[..n], i) == Prefix(ss, i)
  {
    assert ss[..n][..i] == ss[..i];
  }
}
