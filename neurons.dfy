/** The neuron primitive of neuron.h: a weight vector, a bias `theta` and a
    shift `phi`, evaluated as a shifted sigmoid of its pre-activation sum. */
module Neurons {
  import opened Common

  /** A neuron's state. Both C++ constructors store their three arguments as
      they are, which is exactly what this datatype constructor does; nothing
      in the engine changes a neuron afterwards. */
  datatype Neuron = Neuron(weights: seq<real>, theta: real, phi: real)

  /** Specification of `fnet`. The loop only ever reads the first weight
      (its weight iterator is never advanced), so the sum is that weight
      times the sum of the inputs. More inputs than weights is an error;
      fewer are accepted and the extra weights are ignored. */
  function Net(inputs: seq<real>, weights: seq<real>, theta: real): Result<real>
  {
    if |inputs| > |weights| then Err(InvalidInputSize)
    else if |inputs| == 0 then Ok(-theta)
    else Ok(-theta + weights[0] * Sum(inputs))
  }

  /** `fnet` over the iterator range [begin, end) of `buf`: start from
      -theta, check the range length against the weight count, then add
      each input times the weight under the (fixed) weight iterator. */
  method Fnet(buf: seq<real>, begin: nat, end: nat, weights: seq<real>, theta: real)
    returns (r: Result<real>)
    requires begin <= end <= |buf|
    ensures r == Net(buf[begin..end], weights, theta)
    ensures r.Err? <==> end - begin > |weights|
  {
    var sum := -theta;
    var totalSize := end - begin;
    if totalSize > |weights| {
      return Err(InvalidInputSize);
    }
    var wgit := 0;
    var it := begin;
    while it != end
      invariant begin <= it <= end
      invariant it > begin ==> sum == -theta + weights[wgit] * Sum(buf[begin..it])
      invariant it == begin ==> sum == -theta
    {
      assert buf[begin..it + 1][..it - begin] == buf[begin..it];
      sum := sum + buf[it] * weights[wgit];
      it := it + 1;
    }
    assert end > begin ==> Net(buf[begin..end], weights, theta).value == sum;
    return Ok(sum);
  }

  /** `fact`: the shifted sigmoid 2/(1 + exp.apply(phi - net)) - 1, which lies
      strictly between -1 and 1 because exp is positive. */
  function Fact(net: real, phi: real, exp: Exp): (y: real)
    ensures -1.0 < y < 1.0
  {
    2.0 / (1.0 + exp.apply(phi - net)) - 1.0
  }

  /** Specification of `process`: fact of fnet with the neuron's own fields. */
  function Output(n: Neuron, inputs: seq<real>, exp: Exp): (r: Result<real>)
    ensures r.Ok? <==> |inputs| <= |n.weights|
    ensures r.Err? ==> r.error == InvalidInputSize
    ensures r.Ok? ==> -1.0 < r.value < 1.0
  {
    match Net(inputs, n.weights, n.theta)
    case Err(e) => Err(e)
    case Ok(net) => Ok(Fact(net, n.phi, exp))
  }

  /** `process` over the range [begin, end) of `buf`. */
  method Process(n: Neuron, buf: seq<real>, begin: nat, end: nat, exp: Exp) returns (r: Result<real>)
    requires begin <= end <= |buf|
    ensures r == Output(n, buf[begin..end], exp)
  {
    var out := Fnet(buf, begin, end, n.weights, n.theta);
    if out.Err? {
      return Err(out.error);
    }
    r := Ok(Fact(out.value, n.phi, exp));
  }

  /** fnet fails exactly when there are more inputs than weights, and an
      empty input gives exactly -theta. */
  lemma NetFailure(inputs: seq<real>, weights: seq<real>, theta: real)
    ensures Net(inputs, weights, theta).Err? <==> |inputs| > |weights|
    ensures Net(inputs, weights, theta).Err? ==> Net(inputs, weights, theta).error == InvalidInputSize
    ensures |inputs| == 0 ==> Net(inputs, weights, theta) == Ok(-theta)
  {
  }

  /** Only the first weight takes part: two weight vectors that agree on
      their first entry and are long enough give the same net input. */
  lemma NetIgnoresLaterWeights(inputs: seq<real>, w1: seq<real>, w2: seq<real>, theta: real)
    requires |inputs| <= |w1| && |inputs| <= |w2|
    requires |inputs| > 0 ==> w1[0] == w2[0]
    ensures Net(inputs, w1, theta) == Net(inputs, w2, theta)
  {
    if |inputs| > 0 {
      assert Net(inputs, w1, theta).value == Net(inputs, w2, theta).value;
    }
  }

  /** The net input is affine in each input with the same slope weights[0]:
      appending an input x adds weights[0] * x. */
  lemma {:induction false} NetAppend(inputs: seq<real>, x: real, weights: seq<real>, theta: real)
    requires |inputs| + 1 <= |weights|
    ensures Net(inputs + [x], weights, theta).Ok?
    ensures Net(inputs + [x], weights, theta).value == Net(inputs, weights, theta).value + weights[0] * x
  {
    assert (inputs + [x])[..|inputs|] == inputs;
    assert Sum(inputs + [x]) == Sum(inputs) + x;
  }

  /** The five-input single-neuron example (weights 1, 4, 1, 0.15, 67, zero
      bias): because the weight iterator never moves, the net input is
      1 * (0.1 + 0.2 + 0 + 1 + 0.01) = 1.31, not the dot product 1.72. */
  lemma SingleNeuronExample()
    ensures Net([0.1, 0.2, 0.0, 1.0, 0.01], [1.0, 4.0, 1.0, 0.15, 67.0], 0.0) == Ok(1.31)
  {
    var xs := [0.1, 0.2, 0.0, 1.0, 0.01];
    assert xs[..4] == [0.1, 0.2, 0.0, 1.0];
    assert [0.1, 0.2, 0.0, 1.0][..3] == [0.1, 0.2, 0.0];
    assert [0.1, 0.2, 0.0][..2] == [0.1, 0.2];
    assert [0.1, 0.2][..1] == [0.1];
    assert [0.1][..0] == [];
    assert Sum([0.1]) == 0.1;
    assert Sum([0.1, 0.2]) == 0.1 + 0.2;
    assert Sum([0.1, 0.2, 0.0]) == 0.1 + 0.2 + 0.0;
    assert Sum([0.1, 0.2, 0.0, 1.0]) == 0.1 + 0.2 + 0.0 + 1.0;
    assert Sum(xs) == 1.31;
  }
}
