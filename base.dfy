/** Failure-carrying values shared by every module of the model. */
module Base {

  datatype Option<+T> = None | Some(value: T)

  /** The outcome of an operation that either yields a value or reports why it could not. */
  datatype Result<+T, +E> = Success(value: T) | Failure(error: E)

  /** `n` copies of one row, as a join produces them. */
  function Repeat<T>(x: T, n: nat): (r: seq<T>)
    ensures |r| == n && forall i :: 0 <= i < n ==> r[i] == x
    ensures multiset(r)[x] == n
  {
    if n == 0 then [] else [x] + Repeat(x, n - 1)
  }

  /** Concatenation regroups freely; stated once so that proofs can cite it instead of re-deriving
      sequence equality element by element. */
  lemma AppendAssoc<T>(x: seq<T>, y: seq<T>, z: seq<T>)
    ensures x + (y + z) == (x + y) + z
  {
  }

  lemma AppendEmpty<T>(x: seq<T>)
    ensures x + [] == x
  {
  }

  /** A sequence's multiset is its head plus the multiset of its tail. */
  lemma MultisetCons<T>(s: seq<T>)
    requires s != []
    ensures multiset(s) == multiset{s[0]} + multiset(s[1..])
  {
    assert s == [s[0]] + s[1..];
  }

  /** A run of copies of `x` holds `n` of `x` and none of anything else. */
  lemma {:induction false} RepeatCount<T>(x: T, n: nat, y: T)
    ensures multiset(Repeat(x, n))[y] == if y == x then n else 0
  {
    if n > 0 {
      RepeatCount(x, n - 1, y);
      assert Repeat(x, n) == [x] + Repeat(x, n - 1);
    }
  }

  /** No element occurs twice. */
  predicate NoDuplicates<T(==)>(s: seq<T>)
  {
    forall i, j :: 0 <= i < j < |s| ==> s[i] != s[j]
  }

  /** One more occurrence adds one more multiple. */
  lemma MulSucc(m: nat, c: nat)
    ensures (1 + m) * c == c + m * c
  {
  }

  /** A product of two counts is positive exactly when both are. */
  lemma MulPositive(a: nat, b: nat)
    ensures a * b > 0 <==> a > 0 && b > 0
  {
    if a > 0 && b > 0 {
      assert a * b >= b by {
        assert a * b == (a - 1) * b + b;
      }
    }
  }

  /** The counting step of a join: the head contributes `c` copies when it is the counted row, and
      the tail `m * c`; together that is the row's multiplicity `k` times `c`. */
  lemma CountStep(hit: bool, k: nat, m: nat, c: nat, headCount: nat, tailCount: nat)
    requires k == (if hit then 1 else 0) + m
    requires headCount == (if hit then c else 0)
    requires tailCount == m * c
    ensures headCount + tailCount == k * c
  {
    if hit {
      MulSucc(m, c);
    }
  }
}
