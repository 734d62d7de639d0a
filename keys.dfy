/** Keys and values are byte strings; keys are ordered as Rust orders `&[u8]`. */
module Keys {
  import opened Bytes

  type Key = seq<byte>
  type Value = seq<byte>

  /** Lexicographic strict order: a proper prefix comes first. */
  predicate KeyLt(a: Key, b: Key)
  {
    if |a| == 0 then |b| > 0
    else if |b| == 0 then false
    else a[0] < b[0] || (a[0] == b[0] && KeyLt(a[1..], b[1..]))
  }

  predicate KeyLe(a: Key, b: Key)
  {
    a == b || KeyLt(a, b)
  }

  lemma {:induction false} KeyLtIrreflexive(a: Key)
    ensures !KeyLt(a, a)
  {
    if |a| > 0 {
      KeyLtIrreflexive(a[1..]);
    }
  }

  lemma {:induction false} KeyLtTransitive(a: Key, b: Key, c: Key)
    requires KeyLt(a, b) && KeyLt(b, c)
    ensures KeyLt(a, c)
  {
    if |a| > 0 && a[0] == b[0] && b[0] == c[0] {
      KeyLtTransitive(a[1..], b[1..], c[1..]);
    }
  }

  /** Any two distinct keys are ordered one way or the other. */
  lemma {:induction false} KeyLtTotal(a: Key, b: Key)
    ensures a == b || KeyLt(a, b) || KeyLt(b, a)
  {
    if |a| > 0 && |b| > 0 && a[0] == b[0] {
      KeyLtTotal(a[1..], b[1..]);
      if a[1..] == b[1..] {
        assert a == [a[0]] + a[1..] && b == [b[0]] + b[1..];
      }
    }
  }

  /** `KeyLt` and `KeyLe` in reverse exclude each other, and one of them holds. */
  lemma KeyLtNotLe(a: Key, b: Key)
    ensures KeyLt(a, b) <==> !KeyLe(b, a)
  {
    KeyLtTotal(a, b);
    KeyLtIrreflexive(a);
    if KeyLt(a, b) && KeyLt(b, a) {
      KeyLtTransitive(a, b, a);
    }
  }

  lemma KeyLeLtTransitive(a: Key, b: Key, c: Key)
    requires KeyLe(a, b) && KeyLt(b, c)
    ensures KeyLt(a, c)
  {
    if a != b {
      KeyLtTransitive(a, b, c);
    }
  }

  lemma KeyLtLeTransitive(a: Key, b: Key, c: Key)
    requires KeyLt(a, b) && KeyLe(b, c)
    ensures KeyLt(a, c)
  {
    if b != c {
      KeyLtTransitive(a, b, c);
    }
  }
}
