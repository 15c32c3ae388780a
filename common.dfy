/** Small shared vocabulary: optional values, fallible results, counting over a
    roll, and a die written as the list of its faces. */
module Common {

  datatype Option<T> = None | Some(value: T)

  datatype Result<T, E> = Success(value: T) | Failure(error: E)

  /** A die as the list of its faces; a face that appears k times has weight k
      (`H(6)` is `[1, 2, 3, 4, 5, 6]`). */
  type Die = seq<int>

  /** The faces 1..n of an n-sided die, as `H(n)` builds it. */
  function Faces(n: nat): (d: Die)
    ensures |d| == n
    ensures forall i :: 0 <= i < n ==> d[i] == i + 1
  {
    seq(n, i requires 0 <= i < n => i + 1)
  }

  /** How many entries of `s` equal `x` (`Counter(s)[x]`, `H(s).get(x, 0)`). */
  function Count<T(==)>(s: seq<T>, x: T): (c: nat)
    ensures c <= |s|
    ensures c == multiset(s)[x]
  {
    if s == [] then 0
    else
      assert s == [s[0]] + s[1..];
      (if s[0] == x then 1 else 0) + Count(s[1..], x)
  }

  /** The sum of a sequence of integers (`sum(roll)`). */
  function Sum(s: seq<int>): int
  {
    if s == [] then 0 else s[0] + Sum(s[1..])
  }

  lemma {:induction false} SumAppend(a: seq<int>, b: seq<int>)
    ensures Sum(a + b) == Sum(a) + Sum(b)
  {
    if a == [] {
      assert a + b == b;
    } else {
      assert (a + b)[1..] == a[1..] + b;
      SumAppend(a[1..], b);
    }
  }

  lemma {:induction false} CountAppend<T>(a: seq<T>, b: seq<T>, x: T)
    ensures Count(a + b, x) == Count(a, x) + Count(b, x)
  {
    assert multiset(a + b) == multiset(a) + multiset(b);
  }
}
