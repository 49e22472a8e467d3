/** Specification of error scoring and of the reverse pass of perceptron.h:
    squared errors, output and hidden deltas, and the gradient tensor the
    reverse pass leaves in the caller's buffer. */
module Backprop {
  import opened Common
  import opened Neurons
  import opened Layers

  /** `totalError`'s per-output entries: (actual - expected)^2. */
  function SquaredErrors(actual: seq<real>, expected: seq<real>): (r: seq<real>)
    requires |actual| == |expected|
    ensures |r| == |actual|
    ensures forall i :: 0 <= i < |r| ==> 0.0 <= r[i]
  {
    seq(|actual|, i requires 0 <= i < |actual| => Square(actual[i] - expected[i]))
  }

  lemma SquaredErrorsAt(actual: seq<real>, expected: seq<real>, k: nat)
    requires |actual| == |expected| && k < |actual|
    ensures SquaredErrors(actual, expected)[k] == Square(actual[k] - expected[k])
  {
  }

  /** The raw output errors e_i = expected_i - actual_i that the reverse pass
      first writes into the caller's partial-error buffer. */
  function RawErrors(expected: seq<real>, actual: seq<real>): seq<real>
    requires |actual| <= |expected|
  {
    seq(|actual|, i requires 0 <= i < |actual| => expected[i] - actual[i])
  }

  /** Every entry squared. */
  function Squares(s: seq<real>): (r: seq<real>)
    ensures |r| == |s|
  {
    seq(|s|, i requires 0 <= i < |s| => Square(s[i]))
  }

  /** The partial-error buffer after the reverse pass: the raw errors over
      the first |actual| entries, the caller's stale entries after them, all
      squared in place. */
  function FinalPartialErrors(partialError: seq<real>, actual: seq<real>, expected: seq<real>): (r: seq<real>)
    requires |actual| <= |expected| && |actual| <= |partialError|
    ensures |r| == |partialError|
  {
    Squares(RawErrors(expected, actual) + partialError[|actual|..])
  }

  /** The delta of an output neuron with raw error e and output y. */
  function OutputDelta(e: real, y: real): real
  {
    e * 2.0 * y * (1.0 - y)
  }

  /** The delta of a hidden neuron whose back-propagated sum is `sum` and
      whose output is y. */
  function HiddenDelta(sum: real, y: real): real
  {
    sum * (y * (1.0 - y))
  }

  /** Output-layer deltas: e_i * 2 * y_i * (1 - y_i). */
  function OutputDeltas(errors: seq<real>, y: seq<real>): (r: seq<real>)
    requires |errors| == |y|
    ensures |r| == |y|
  {
    seq(|y|, i requires 0 <= i < |y| => OutputDelta(errors[i], y[i]))
  }

  /** Sum over the neurons k of the next layer of succ_k * w_{k,j}, where
      w_{k,j} is the weight neuron k applies to input position j. */
  function BackSum(succ: seq<real>, next: Layer, j: nat): real
    requires |succ| == |next|
    requires Fits(next, j + 1)
  {
    if |next| == 0 then 0.0
    else
      var k := |next| - 1;
      BackSum(succ[..k], next[..k], j) + succ[k] * next[k].weights[j]
  }

  /** Hidden-layer deltas: the back-propagated sum times y_j * (1 - y_j). */
  function HiddenDeltas(succ: seq<real>, next: Layer, y: seq<real>): (r: seq<real>)
    requires |succ| == |next|
    requires Fits(next, |y|)
    ensures |r| == |y|
  {
    seq(|y|, j requires 0 <= j < |y| => HiddenDelta(BackSum(succ, next, j), y[j]))
  }

  /** The outputs of a successful forward pass are shaped like the layers,
      and no neuron is fed more values than it has weights. */
  predicate Shaped(layers: seq<Layer>, input: seq<real>, outs: seq<seq<real>>)
  {
    && |layers| > 0
    && |outs| == |layers|
    && (forall i :: 0 <= i < |layers| ==> |outs[i]| == |layers[i]|)
    && Compatible(layers, |input|)
  }

  /** The delta vector of layer l: output deltas for the last layer, and the
      back-propagation of layer l + 1's deltas through its weights otherwise. */
  function Deltas(layers: seq<Layer>, input: seq<real>, outs: seq<seq<real>>, expected: seq<real>, l: nat): (r: seq<real>)
    requires Shaped(layers, input, outs)
    requires |Last(layers)| <= |expected|
    requires l < |layers|
    ensures |r| == |layers[l]|
    decreases |layers| - l
  {
    if l == |layers| - 1 then
      OutputDeltas(RawErrors(expected, outs[l]), outs[l])
    else
      assert FeedWidth(layers, |input|, l + 1) == |outs[l]|;
      HiddenDeltas(Deltas(layers, input, outs, expected, l + 1), layers[l + 1], outs[l])
  }

  /** One neuron's gradient vector after the reverse pass: the caller's old
      vector resized to 1 + wgCount (new entries 0), entry 0 set to -2 * delta
      and entry 1 + k set to -2 * delta * feed[k] for every k below |feed|. */
  function NeuronGradient(prev: seq<real>, wgCount: nat, delta: real, feed: seq<real>): (g: seq<real>)
    requires |feed| <= wgCount
    ensures |g| == 1 + wgCount
  {
    var base := Resize(prev, 1 + wgCount, 0.0);
    seq(1 + wgCount, k requires 0 <= k < 1 + wgCount =>
      if k == 0 then -2.0 * delta
      else if k - 1 < |feed| then -2.0 * delta * feed[k - 1]
      else base[k])
  }

  /** One layer's gradients: the caller's old layer entry resized to the
      layer width (new neuron entries empty), then each neuron's vector. */
  function LayerGradients(prev: seq<seq<real>>, layer: Layer, deltas: seq<real>, feed: seq<real>): (g: seq<seq<real>>)
    requires |deltas| == |layer|
    requires Fits(layer, |feed|)
    ensures |g| == |layer|
  {
    var base := Resize(prev, |layer|, []);
    seq(|layer|, j requires 0 <= j < |layer| => NeuronGradient(base[j], |layer[j].weights|, deltas[j], feed))
  }

  /** The whole gradient tensor: the caller's old tensor resized to the
      layer count, then every layer's gradients with its own deltas and feed. */
  function Gradients(prev: seq<seq<seq<real>>>, layers: seq<Layer>, input: seq<real>, outs: seq<seq<real>>,
                     expected: seq<real>): (g: seq<seq<seq<real>>>)
    requires Shaped(layers, input, outs)
    requires |Last(layers)| <= |expected|
    ensures |g| == |layers|
  {
    var base := Resize(prev, |layers|, []);
    seq(|layers|, l requires 0 <= l < |layers| =>
      assert |Feed(outs, input, l)| == FeedWidth(layers, |input|, l);
      LayerGradients(base[l], layers[l], Deltas(layers, input, outs, expected, l), Feed(outs, input, l)))
  }

  /** Entry l of the gradient tensor, and the bound that makes it defined:
      every neuron of layer l has at least as many weights as its feed has
      entries. */
  lemma GradientsAt(prev: seq<seq<seq<real>>>, layers: seq<Layer>, input: seq<real>, outs: seq<seq<real>>,
                    expected: seq<real>, l: nat)
    requires Shaped(layers, input, outs)
    requires |Last(layers)| <= |expected|
    requires l < |layers|
    ensures Fits(layers[l], |Feed(outs, input, l)|)
    ensures Gradients(prev, layers, input, outs, expected)[l] ==
      LayerGradients(Resize(prev, |layers|, [])[l], layers[l], Deltas(layers, input, outs, expected, l), Feed(outs, input, l))
  {
    assert |Feed(outs, input, l)| == FeedWidth(layers, |input|, l);
  }

  /** The delta recurrences: output deltas for the last layer, and for a
      hidden layer l the next layer's deltas sent back through its weights,
      which is defined because layer l + 1 is fed layer l's width. */
  lemma DeltasAt(layers: seq<Layer>, input: seq<real>, outs: seq<seq<real>>, expected: seq<real>, l: nat)
    requires Shaped(layers, input, outs)
    requires |Last(layers)| <= |expected|
    requires l < |layers|
    ensures l == |layers| - 1 ==>
      Deltas(layers, input, outs, expected, l) == OutputDeltas(RawErrors(expected, outs[l]), outs[l])
    ensures l < |layers| - 1 ==> Fits(layers[l + 1], |outs[l]|)
    ensures l < |layers| - 1 ==>
      Deltas(layers, input, outs, expected, l) ==
        HiddenDeltas(Deltas(layers, input, outs, expected, l + 1), layers[l + 1], outs[l])
  {
    if l < |layers| - 1 {
      assert FeedWidth(layers, |input|, l + 1) == |outs[l]|;
    }
  }

  /** The delta vectors of every layer. */
  ghost function AllDeltas(layers: seq<Layer>, input: seq<real>, outs: seq<seq<real>>, expected: seq<real>): (D: seq<seq<real>>)
    requires Shaped(layers, input, outs)
    requires |Last(layers)| <= |expected|
    ensures |D| == |layers|
    ensures forall l :: 0 <= l < |layers| ==> D[l] == Deltas(layers, input, outs, expected, l)
  {
    seq(|layers|, l requires 0 <= l < |layers| => Deltas(layers, input, outs, expected, l))
  }

  /** The recurrences the reverse pass follows, layer by layer: G[l] is layer
      l's gradients from the resized caller's entry base[l], its deltas D[l]
      and its feed, and D[l] is D[l + 1] sent back through layer l + 1. */
  ghost predicate Targets(G: seq<seq<seq<real>>>, D: seq<seq<real>>, base: seq<seq<seq<real>>>,
                          layers: seq<Layer>, input: seq<real>, outs: seq<seq<real>>)
  {
    && |G| == |D| == |base| == |layers| == |outs|
    && (forall l :: 0 <= l < |layers| ==>
          && |D[l]| == |layers[l]| == |outs[l]|
          && Fits(layers[l], |Feed(outs, input, l)|)
          && G[l] == LayerGradients(base[l], layers[l], D[l], Feed(outs, input, l)))
    && (forall l :: 0 <= l < |layers| - 1 ==>
          && Fits(layers[l + 1], |outs[l]|)
          && D[l] == HiddenDeltas(D[l + 1], layers[l + 1], outs[l]))
  }

  /** The state of the hidden-layer loop before it handles layer l: the
      delta buffer holds layer l + 1's deltas, every layer after l has its
      gradients, and the entries of layer l and those before it are still
      the resized caller's ones. */
  ghost predicate Pending(grads: seq<seq<seq<real>>>, buf: seq<real>, G: seq<seq<seq<real>>>, D: seq<seq<real>>,
                          base: seq<seq<seq<real>>>, l: int)
  {
    && |grads| == |G| == |D| == |base|
    && -1 <= l < |G| - 1
    && |D[l + 1]| <= |buf| && buf[..|D[l + 1]|] == D[l + 1]
    && (forall k :: l < k < |G| ==> grads[k] == G[k])
    && (forall k :: 0 <= k <= l ==> grads[k] == base[k])
  }

  lemma TargetsHold(prev: seq<seq<seq<real>>>, layers: seq<Layer>, input: seq<real>, outs: seq<seq<real>>,
                     expected: seq<real>)
    requires Shaped(layers, input, outs)
    requires |Last(layers)| <= |expected|
    ensures Targets(Gradients(prev, layers, input, outs, expected), AllDeltas(layers, input, outs, expected),
                    Resize(prev, |layers|, []), layers, input, outs)
  {
    var G := Gradients(prev, layers, input, outs, expected);
    var D := AllDeltas(layers, input, outs, expected);
    var base := Resize(prev, |layers|, []);
    forall l | 0 <= l < |layers|
      ensures Fits(layers[l], |Feed(outs, input, l)|)
      ensures G[l] == LayerGradients(base[l], layers[l], D[l], Feed(outs, input, l))
    {
      GradientsAt(prev, layers, input, outs, expected, l);
    }
    forall l | 0 <= l < |layers| - 1
      ensures Fits(layers[l + 1], |outs[l]|)
      ensures D[l] == HiddenDeltas(D[l + 1], layers[l + 1], outs[l])
    {
      DeltasAt(layers, input, outs, expected, l);
    }
  }

  /** Before the hidden layers: the buffer holds the output deltas and only
      the output layer's entry is filled in. */
  lemma PendingStart(lg: seq<seq<real>>, buf: seq<real>, prev: seq<seq<seq<real>>>, layers: seq<Layer>,
                     input: seq<real>, outs: seq<seq<real>>, expected: seq<real>)
    requires Shaped(layers, input, outs)
    requires |Last(layers)| <= |expected|
    requires lg == Gradients(prev, layers, input, outs, expected)[|layers| - 1]
    requires |Last(layers)| <= |buf|
    requires buf[..|Last(layers)|] == Deltas(layers, input, outs, expected, |layers| - 1)
    ensures Pending(Resize(prev, |layers|, [])[|layers| - 1 := lg], buf, Gradients(prev, layers, input, outs, expected),
                    AllDeltas(layers, input, outs, expected), Resize(prev, |layers|, []), |layers| - 2)
  {
    var n := |layers|;
    var G := Gradients(prev, layers, input, outs, expected);
    var grads := Resize(prev, n, [])[n - 1 := lg];
    forall k | n - 2 < k < n
      ensures grads[k] == G[k]
    {
      assert k == n - 1;
    }
  }

  /** Filling in layer l's entry and its deltas moves the boundary down by
      one layer. */
  lemma PendingStep(grads: seq<seq<seq<real>>>, lg: seq<seq<real>>, buf: seq<real>, ds: seq<real>,
                    G: seq<seq<seq<real>>>, D: seq<seq<real>>, base: seq<seq<seq<real>>>, l: nat)
    requires Pending(grads, buf, G, D, base, l)
    requires lg == G[l]
    requires |D[l]| <= |ds| && ds[..|D[l]|] == D[l]
    ensures Pending(grads[l := lg], ds, G, D, base, l - 1)
  {
  }

  /** Once every layer is filled in, the tensor is the target. */
  lemma PendingDone(grads: seq<seq<seq<real>>>, buf: seq<real>, G: seq<seq<seq<real>>>, D: seq<seq<real>>,
                    base: seq<seq<seq<real>>>)
    requires Pending(grads, buf, G, D, base, -1)
    ensures grads == G
  {
  }

  /** The two error routines agree on the outputs: after the reverse pass
      the first |actual| partial errors are exactly `totalError`'s squared
      errors, and the stale entries after them are merely squared. */
  lemma ErrorRoutinesAgree(partialError: seq<real>, actual: seq<real>, expected: seq<real>)
    requires |actual| == |expected| <= |partialError|
    ensures FinalPartialErrors(partialError, actual, expected)[..|actual|] == SquaredErrors(actual, expected)
    ensures FinalPartialErrors(partialError, actual, expected)[|actual|..] == Squares(partialError[|actual|..])
  {
    var r := FinalPartialErrors(partialError, actual, expected);
    var n := |actual|;
    forall i | 0 <= i < n
      ensures r[..n][i] == SquaredErrors(actual, expected)[i]
    {
      assert (expected[i] - actual[i]) * (expected[i] - actual[i]) == (actual[i] - expected[i]) * (actual[i] - expected[i]);
    }
  }

  /** The reverse pass's total is `totalError`'s total plus the squares of
      the stale entries, so it is never smaller, and the two are equal when
      the partial-error buffer is exactly as wide as the output. */
  lemma ErrorTotalsCompare(partialError: seq<real>, actual: seq<real>, expected: seq<real>)
    requires |actual| == |expected| <= |partialError|
    ensures Sum(FinalPartialErrors(partialError, actual, expected)) ==
      Sum(SquaredErrors(actual, expected)) + Sum(Squares(partialError[|actual|..]))
    ensures Sum(SquaredErrors(actual, expected)) <= Sum(FinalPartialErrors(partialError, actual, expected))
    ensures |partialError| == |actual| ==>
      Sum(FinalPartialErrors(partialError, actual, expected)) == Sum(SquaredErrors(actual, expected))
  {
    var r := FinalPartialErrors(partialError, actual, expected);
    var n := |actual|;
    ErrorRoutinesAgree(partialError, actual, expected);
    assert r == r[..n] + r[n..];
    SumAppend(r[..n], r[n..]);
    var stale := Squares(partialError[n..]);
    SumNonnegative(stale);
    if |partialError| == n {
      assert stale == [];
    }
  }

  /** Both error totals are nonnegative. */
  lemma ErrorTotalsNonnegative(partialError: seq<real>, actual: seq<real>, expected: seq<real>)
    requires |actual| <= |expected| && |actual| <= |partialError|
    ensures |actual| == |expected| ==> 0.0 <= Sum(SquaredErrors(actual, expected))
    ensures 0.0 <= Sum(FinalPartialErrors(partialError, actual, expected))
  {
    if |actual| == |expected| {
      SumNonnegative(SquaredErrors(actual, expected));
    }
    SumNonnegative(FinalPartialErrors(partialError, actual, expected));
  }

  /** Neuron j of layer l owns entry [l][j] of the gradient tensor: the
      gradient vector of that neuron, computed from its delta and its
      layer's feed, starting from the caller's old vector at that position,
      or from an empty one where the caller had none. */
  lemma GradientNeuron(prev: seq<seq<seq<real>>>, layers: seq<Layer>, input: seq<real>, outs: seq<seq<real>>,
                       expected: seq<real>, l: nat, j: nat)
    requires Shaped(layers, input, outs)
    requires |Last(layers)| <= |expected|
    requires l < |layers| && j < |layers[l]|
    ensures |Gradients(prev, layers, input, outs, expected)[l]| == |layers[l]|
    ensures |Feed(outs, input, l)| <= |layers[l][j].weights|
    ensures Gradients(prev, layers, input, outs, expected)[l][j] ==
      NeuronGradient(if l < |prev| && j < |prev[l]| then prev[l][j] else [], |layers[l][j].weights|,
                     Deltas(layers, input, outs, expected, l)[j], Feed(outs, input, l))
  {
    GradientsAt(prev, layers, input, outs, expected, l);
    var layerBase := Resize(prev, |layers|, [])[l];
    assert layerBase == if l < |prev| then prev[l] else [];
    LayerGradientsAt(layerBase, layers[l], Deltas(layers, input, outs, expected, l), Feed(outs, input, l), j);
  }

  /** Neuron j's entry of a layer's gradients starts from the caller's old
      vector for that neuron, or from an empty one. */
  lemma LayerGradientsAt(prev: seq<seq<real>>, layer: Layer, deltas: seq<real>, feed: seq<real>, j: nat)
    requires |deltas| == |layer|
    requires Fits(layer, |feed|)
    requires j < |layer|
    ensures LayerGradients(prev, layer, deltas, feed)[j] ==
      NeuronGradient(if j < |prev| then prev[j] else [], |layer[j].weights|, deltas[j], feed)
  {
    assert Resize(prev, |layer|, [])[j] == if j < |prev| then prev[j] else [];
  }

  /** Entry k of one neuron's gradient vector of 1 + wgCount entries:
      entry 0 is -2 * delta, entry 1 + i is -2 * delta * feed[i] below the
      feed's width, and every later entry keeps the old vector's value, or
      0 where the old vector had none. */
  lemma NeuronGradientAt(prev: seq<real>, wgCount: nat, delta: real, feed: seq<real>, k: nat)
    requires |feed| <= wgCount
    requires k < 1 + wgCount
    ensures k == 0 ==> NeuronGradient(prev, wgCount, delta, feed)[k] == -2.0 * delta
    ensures 0 < k <= |feed| ==> NeuronGradient(prev, wgCount, delta, feed)[k] == -2.0 * delta * feed[k - 1]
    ensures |feed| < k ==> NeuronGradient(prev, wgCount, delta, feed)[k] == if k < |prev| then prev[k] else 0.0
  {
    assert Resize(prev, 1 + wgCount, 0.0)[k] == if k < |prev| then prev[k] else 0.0;
  }

  /** The delta of output neuron j is e_j * 2 * y_j * (1 - y_j) with
      e_j = expected_j - actual_j. */
  lemma OutputDeltaEntry(layers: seq<Layer>, input: seq<real>, outs: seq<seq<real>>, expected: seq<real>, j: nat)
    requires Shaped(layers, input, outs)
    requires |Last(layers)| <= |expected|
    requires j < |Last(layers)|
    ensures Deltas(layers, input, outs, expected, |layers| - 1)[j] ==
      OutputDelta(expected[j] - Last(outs)[j], Last(outs)[j])
  {
    DeltasLast(layers, input, outs, expected);
    var d := Deltas(layers, input, outs, expected, |layers| - 1);
    assert d[j] == OutputDeltas(RawErrors(expected, Last(outs)), Last(outs))[j];
    OutputDeltasAt(expected, Last(outs), j);
  }

  /** The output layer's deltas come from the raw output errors. */
  lemma DeltasLast(layers: seq<Layer>, input: seq<real>, outs: seq<seq<real>>, expected: seq<real>)
    requires Shaped(layers, input, outs)
    requires |Last(layers)| <= |expected|
    ensures Deltas(layers, input, outs, expected, |layers| - 1) == OutputDeltas(RawErrors(expected, Last(outs)), Last(outs))
  {
  }

  /** Entry j of the output deltas computed from the raw errors. */
  lemma OutputDeltasAt(expected: seq<real>, y: seq<real>, j: nat)
    requires |y| <= |expected| && j < |y|
    ensures OutputDeltas(RawErrors(expected, y), y)[j] == OutputDelta(expected[j] - y[j], y[j])
  {
    var e := RawErrors(expected, y);
    assert e[j] == expected[j] - y[j];
  }

  /** The delta of hidden neuron j of layer l is the next layer's deltas
      weighted by the weights its neurons apply to position j, times
      y_j * (1 - y_j); every such weight exists because layer l + 1 is fed
      layer l's width. */
  lemma HiddenDeltaEntry(layers: seq<Layer>, input: seq<real>, outs: seq<seq<real>>, expected: seq<real>,
                         l: nat, j: nat)
    requires Shaped(layers, input, outs)
    requires |Last(layers)| <= |expected|
    requires l + 1 < |layers| && j < |layers[l]|
    ensures Fits(layers[l + 1], j + 1)
    ensures Deltas(layers, input, outs, expected, l)[j] ==
      HiddenDelta(BackSum(Deltas(layers, input, outs, expected, l + 1), layers[l + 1], j), outs[l][j])
  {
    DeltasAt(layers, input, outs, expected, l);
  }
}
