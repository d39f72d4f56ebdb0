/** Datatypes and the byte/string vocabulary shared by every model in the project. */
module Prelude {

  datatype Option<+T> = None | Some(value: T)

  datatype Result<+T, +E> = Ok(value: T) | Err(error: E)

  type Byte = x: int | 0 <= x < 256

  const TWO_32: nat := 0x1_0000_0000
  const TWO_64: nat := 0x1_0000_0000_0000_0000

  function Min(a: int, b: int): (r: int)
    ensures r <= a && r <= b && (r == a || r == b)
  {
    if a <= b then a else b
  }

  function Max(a: int, b: int): (r: int)
    ensures r >= a && r >= b && (r == a || r == b)
  {
    if a <= b then b else a
  }

  /** Rust's `Ord` on strings: the first differing element decides, a proper prefix comes first. */
  predicate LexLess(a: string, b: string)
  {
    b != [] && (a == [] || a[0] < b[0] || (a[0] == b[0] && LexLess(a[1..], b[1..])))
  }

  lemma {:induction false} LexTotal(a: string, b: string)
    ensures a == b || LexLess(a, b) || LexLess(b, a)
  {
    if a != [] && b != [] && a[0] == b[0] {
      LexTotal(a[1..], b[1..]);
      assert a == [a[0]] + a[1..] && b == [b[0]] + b[1..];
    }
  }

  lemma {:induction false} LexAsymmetric(a: string, b: string)
    requires LexLess(a, b)
    ensures a != b && !LexLess(b, a)
  {
    if a != [] && a[0] == b[0] {
      LexAsymmetric(a[1..], b[1..]);
    }
  }

  lemma {:induction false} LexTransitive(a: string, b: string, c: string)
    requires LexLess(a, b) && LexLess(b, c)
    ensures LexLess(a, c)
  {
    if a != [] && a[0] == b[0] && b[0] == c[0] {
      LexTransitive(a[1..], b[1..], c[1..]);
    }
  }

  lemma ProductsApart(a: int, b: int, d: nat)
    requires a < b
    ensures b * d >= a * d + d
  {
    var k := b - a - 1;
    assert b * d == a * d + d + k * d;
  }

  /** A remainder is found by any decomposition that has one in range. */
  lemma RemainderIsUnique(x: int, d: nat, q: int, r: nat)
    requires x == q * d + r && r < d
    ensures x % d == r
  {
    var p := x / d;
    if q > p {
      ProductsApart(p, q, d);
    } else if q < p {
      ProductsApart(q, p, d);
    }
  }

  /** Where the last element of a list stands in a rearrangement of it; the rest rearrange each other. */
  lemma Matching<T>(front: seq<T>, x: T, b: seq<T>) returns (j: nat)
    requires multiset(front + [x]) == multiset(b)
    ensures j < |b| && b[j] == x && multiset(front) == multiset(b[..j] + b[j + 1..])
  {
    assert x in multiset(b);
    j :| 0 <= j < |b| && b[j] == x;
    assert b == b[..j] + [x] + b[j + 1..];
    assert multiset(b) == multiset(b[..j]) + multiset{x} + multiset(b[j + 1..]);
    assert multiset(front) == multiset(b) - multiset{x};
    assert multiset(b[..j] + b[j + 1..]) == multiset(b) - multiset{x};
  }
}
