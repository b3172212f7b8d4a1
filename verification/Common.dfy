/** Small datatypes shared by the other modules. */
module Common {
  datatype Option<+T> = None | Some(value: T)

  // A computation that either yields a value or stops with an error (or, in Go, a panic).
  datatype Result<+T> = Ok(value: T) | Failed

  function Lookup<K, V>(m: map<K, V>, k: K): Option<V> {
    if k in m then Some(m[k]) else None
  }

  function ToSeq<T>(o: Option<T>): seq<T> {
    if o.Some? then [o.value] else []
  }

  type Octet = n: int | 0 <= n < 256

  const TWO_16: int := 0x1_0000
  const TWO_32: int := 0x1_0000_0000
  const TWO_64: int := 0x1_0000_0000_0000_0000

  // A subset of a finite set has no more elements, and a strict subset has fewer.
  lemma SubsetSize<T>(a: set<T>, b: set<T>)
    requires a <= b
    ensures |a| <= |b|
    ensures a != b ==> |a| < |b|
  {
    assert b == a + (b - a);
    assert |b| == |a| + |b - a|;
    if a != b {
      assert b - a != {};
    }
  }
}
