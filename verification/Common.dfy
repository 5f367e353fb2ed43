/** What several modules need. */
module Common {
  datatype Option<T> = None | Some(value: T)

  type byte = x: int | 0 <= x < 256

  /** A comparison in the style of strcmp; only the sign of the result matters. */
  type Order<!K> = (K, K) -> int

  ghost predicate Opposite<K>(cmp: Order<K>, a: K, b: K) {
    cmp(a, b) < 0 <==> cmp(b, a) > 0
  }

  ghost predicate Transitive<K>(cmp: Order<K>, a: K, b: K, c: K) {
    cmp(a, b) <= 0 && cmp(b, c) <= 0 ==> cmp(a, c) <= 0
  }

  ghost predicate TotalPreorder<K(!new)>(cmp: Order<K>) {
    (forall a, b :: Opposite(cmp, a, b)) && forall a, b, c :: Transitive(cmp, a, b, c)
  }

  lemma Flip<K(!new)>(cmp: Order<K>, a: K, b: K)
    requires TotalPreorder(cmp)
    ensures (cmp(a, b) < 0 <==> cmp(b, a) > 0) && (cmp(a, b) == 0 <==> cmp(b, a) == 0)
  {
    assert Opposite(cmp, a, b) && Opposite(cmp, b, a);
  }

  /** What is known of three keys in order. */
  lemma Chain<K(!new)>(cmp: Order<K>, a: K, b: K, c: K)
    requires TotalPreorder(cmp) && cmp(a, b) <= 0 && cmp(b, c) <= 0
    ensures cmp(a, c) <= 0 && (cmp(a, b) < 0 || cmp(b, c) < 0 ==> cmp(a, c) < 0)
    ensures cmp(c, a) >= 0 && cmp(b, a) >= 0 && cmp(c, b) >= 0 && (cmp(a, b) < 0 || cmp(b, c) < 0 ==> cmp(c, a) > 0)
  {
    Flip(cmp, a, b);
    Flip(cmp, b, c);
    Flip(cmp, a, c);
    assert Transitive(cmp, a, b, c) && Transitive(cmp, b, c, a) && Transitive(cmp, c, a, b);
  }

  lemma Assoc<T>(a: seq<T>, b: seq<T>, c: seq<T>)
    ensures (a + b) + c == a + (b + c)
  {
  }
}
