/** Shared vocabulary of the network engine: its error taxonomy, a result type
    for operations that throw, the abstract exponential, and the sequence
    helpers that stand for std::vector behaviour (resize, summation). */
module Common {

  /** The three runtime_error conditions the engine raises. */
  datatype Error = EmptyNetwork | InvalidInputSize | OutputSizeMismatch

  /** An operation either produces a value or aborts with one of the errors. */
  datatype Result<T> = Ok(value: T) | Err(error: Error)

  /** A real function that is positive everywhere. */
  type PositiveFn = f: real -> real | forall x :: 0.0 < f(x) witness (x: real) => 1.0

  /** std::exp as an abstract function, passed to every operation that
      evaluates a neuron: all the model relies on is that it is positive
      everywhere, which keeps every sigmoid denominator nonzero. */
  datatype Exp = Exp(apply: PositiveFn)

  /** Left-to-right sum, peeled from the end so that it follows an
      accumulating loop one element at a time. */
  function Sum(s: seq<real>): real
  {
    if |s| == 0 then 0.0 else Sum(s[..|s| - 1]) + s[|s| - 1]
  }

  lemma {:induction false} SumAppend(a: seq<real>, b: seq<real>)
    ensures Sum(a + b) == Sum(a) + Sum(b)
    decreases |b|
  {
    if |b| == 0 {
      assert a + b == a;
    } else {
      var n := |b| - 1;
      assert (a + b)[..|a + b| - 1] == a + b[..n];
      SumAppend(a, b[..n]);
    }
  }

  /** A sum of nonnegative entries is nonnegative. */
  lemma {:induction false} SumNonnegative(s: seq<real>)
    requires forall i :: 0 <= i < |s| ==> 0.0 <= s[i]
    ensures 0.0 <= Sum(s)
    decreases |s|
  {
    if |s| > 0 {
      SumNonnegative(s[..|s| - 1]);
    }
  }

  function Square(x: real): (r: real)
    ensures 0.0 <= r
  {
    x * x
  }

  /** std::vector::resize(n, fill): the first min(n, |v|) entries are kept,
      any new entries are `fill`. */
  function Resize<T>(v: seq<T>, n: nat, fill: T): (r: seq<T>)
    ensures |r| == n
    ensures forall i :: 0 <= i < n && i < |v| ==> r[i] == v[i]
    ensures forall i :: |v| <= i < n ==> r[i] == fill
  {
    if n <= |v| then v[..n] else v + seq(n - |v|, _ => fill)
  }

  function Last<T>(s: seq<T>): T
    requires |s| > 0
  {
    s[|s| - 1]
  }

  /** Overwriting entry i extends the prefix before i by the new value. */
  lemma UpdatePrefix<T>(s: seq<T>, i: nat, x: T)
    requires i < |s|
    ensures s[i := x][..i + 1] == s[..i] + [x]
  {
  }
}
