/** Specification of the network's forward pass (perceptron.h): layer i's
    neurons all read the output vector of layer i - 1, or the network input
    for layer 0. */
module Layers {
  import opened Common
  import opened Neurons

  type Layer = seq<Neuron>

  /** The constructor's input record: a weight vector and a bias. */
  datatype NeuronData = NeuronData(weights: seq<real>, theta: real)

  /** The vector that feeds layer i, given the outputs of the layers before it. */
  function Feed(outs: seq<seq<real>>, input: seq<real>, i: nat): seq<real>
    requires i <= |outs|
  {
    if i == 0 then input else outs[i - 1]
  }

  /** The width of the vector that feeds layer i: the input's for layer 0,
      the previous layer's width otherwise. */
  function FeedWidth(layers: seq<Layer>, inputWidth: nat, i: nat): nat
    requires i < |layers|
  {
    if i == 0 then inputWidth else |layers[i - 1]|
  }

  /** Every neuron of `layer` has at least `width` weights. */
  predicate Fits(layer: Layer, width: nat)
  {
    forall j :: 0 <= j < |layer| ==> width <= |layer[j].weights|
  }

  /** No neuron is fed more values than it has weights. */
  predicate Compatible(layers: seq<Layer>, inputWidth: nat)
  {
    forall i, j :: 0 <= i < |layers| && 0 <= j < |layers[i]| ==>
      FeedWidth(layers, inputWidth, i) <= |layers[i][j].weights|
  }

  /** One layer applied to a feeding vector: every neuron's `process` on the
      whole of it, in order; any neuron that rejects the feed aborts the
      layer. Peeled from the end to follow the neuron loop. */
  function LayerOut(layer: Layer, feed: seq<real>, exp: Exp): (r: Result<seq<real>>)
    ensures r.Ok? ==> |r.value| == |layer|
    ensures r.Err? ==> r.error == InvalidInputSize
    decreases |layer|
  {
    if |layer| == 0 then Ok([])
    else
      var k := |layer| - 1;
      var prev := LayerOut(layer[..k], feed, exp);
      var y := Output(layer[k], feed, exp);
      if prev.Err? then prev
      else if y.Err? then Err(y.error)
      else Ok(prev.value + [y.value])
  }

  /** Runs one more layer after the layers whose outputs are `prev`. */
  function Extend(prev: Result<seq<seq<real>>>, layer: Layer, input: seq<real>, exp: Exp): Result<seq<seq<real>>>
  {
    match prev
    case Err(e) => Err(e)
    case Ok(outs) =>
      match LayerOut(layer, Feed(outs, input, |outs|), exp)
      case Err(e) => Err(e)
      case Ok(row) => Ok(outs + [row])
  }

  /** The all-layers forward pass, built one layer at a time from the front. */
  function ForwardAll(layers: seq<Layer>, input: seq<real>, exp: Exp): (r: Result<seq<seq<real>>>)
    ensures r.Ok? ==> |r.value| == |layers|
    ensures r.Err? ==> r.error == InvalidInputSize
    decreases |layers|
  {
    if |layers| == 0 then Ok([])
    else
      var k := |layers| - 1;
      Extend(ForwardAll(layers[..k], input, exp), layers[k], input, exp)
  }

  /** A successful pass has one output row per layer, as wide as the layer. */
  lemma {:induction false} ForwardAllShape(layers: seq<Layer>, input: seq<real>, exp: Exp)
    requires ForwardAll(layers, input, exp).Ok?
    ensures forall i :: 0 <= i < |layers| ==> |ForwardAll(layers, input, exp).value[i]| == |layers[i]|
    decreases |layers|
  {
    if |layers| > 0 {
      var k := |layers| - 1;
      var pre := layers[..k];
      var prev := ForwardAll(pre, input, exp);
      ExtendOk(prev, layers[k], input, exp);
      ForwardAllShape(pre, input, exp);
      var outs := ForwardAll(layers, input, exp).value;
      forall i | 0 <= i < |layers|
        ensures |outs[i]| == |layers[i]|
      {
        if i < k {
          assert outs[i] == prev.value[i] && pre[i] == layers[i];
        }
      }
    }
  }

  /** A layer succeeds exactly when every neuron has at least as many weights
      as the feed has entries, and then entry j is neuron j's output. */
  lemma {:induction false} LayerOutSpec(layer: Layer, feed: seq<real>, exp: Exp)
    ensures LayerOut(layer, feed, exp).Ok? <==> Fits(layer, |feed|)
    ensures LayerOut(layer, feed, exp).Ok? ==>
      |LayerOut(layer, feed, exp).value| == |layer| &&
      forall j :: 0 <= j < |layer| ==> Output(layer[j], feed, exp) == Ok(LayerOut(layer, feed, exp).value[j])
    ensures LayerOut(layer, feed, exp).Err? ==> LayerOut(layer, feed, exp).error == InvalidInputSize
    decreases |layer|
  {
    if |layer| > 0 {
      var k := |layer| - 1;
      var pre := layer[..k];
      LayerOutSpec(pre, feed, exp);
      assert Fits(layer, |feed|) <==> Fits(pre, |feed|) && |feed| <= |layer[k].weights| by {
        assert forall j :: 0 <= j < k ==> pre[j] == layer[j];
      }
      var r := LayerOut(layer, feed, exp);
      if r.Ok? {
        forall j | 0 <= j < |layer|
          ensures Output(layer[j], feed, exp) == Ok(r.value[j])
        {
          if j < k {
            assert pre[j] == layer[j];
          }
        }
      }
    }
  }

  /** One more neuron that accepts the feed extends a successful prefix of
      the layer by its output. */
  lemma LayerOutStep(layer: Layer, feed: seq<real>, exp: Exp, i: nat, prefix: seq<real>, y: real)
    requires i < |layer|
    requires LayerOut(layer[..i], feed, exp) == Ok(prefix)
    requires Output(layer[i], feed, exp) == Ok(y)
    ensures LayerOut(layer[..i + 1], feed, exp) == Ok(prefix + [y])
  {
    assert layer[..i + 1][..i] == layer[..i];
  }

  /** A neuron that rejects the feed makes the whole layer fail. */
  lemma LayerOutStop(layer: Layer, feed: seq<real>, exp: Exp, i: nat)
    requires i < |layer|
    requires Output(layer[i], feed, exp).Err?
    ensures LayerOut(layer, feed, exp) == Err(InvalidInputSize)
  {
    assert layer[..i + 1][..i] == layer[..i];
    LayerOutPrefixErr(layer, feed, exp, i + 1);
  }

  /** A neuron that rejects the feed in the first i neurons makes the whole
      layer fail. */
  lemma {:induction false} LayerOutPrefixErr(layer: Layer, feed: seq<real>, exp: Exp, i: nat)
    requires i <= |layer|
    requires LayerOut(layer[..i], feed, exp).Err?
    ensures LayerOut(layer, feed, exp).Err?
    decreases |layer| - i
  {
    if i < |layer| {
      assert layer[..i + 1][..i] == layer[..i];
      LayerOutPrefixErr(layer, feed, exp, i + 1);
    } else {
      assert layer[..i] == layer;
    }
  }

  /** Running the first i + 1 layers extends the run of the first i layers by
      layer i applied to its feed. */
  lemma ForwardAllStep(layers: seq<Layer>, input: seq<real>, exp: Exp, i: nat)
    requires i < |layers|
    ensures ForwardAll(layers[..i + 1], input, exp) == Extend(ForwardAll(layers[..i], input, exp), layers[i], input, exp)
  {
    assert layers[..i + 1][..i] == layers[..i];
  }

  /** A successful extension extends a successful run by exactly one row. */
  lemma ExtendOk(prev: Result<seq<seq<real>>>, layer: Layer, input: seq<real>, exp: Exp)
    requires Extend(prev, layer, input, exp).Ok?
    ensures prev.Ok?
    ensures LayerOut(layer, Feed(prev.value, input, |prev.value|), exp).Ok?
    ensures Extend(prev, layer, input, exp).value ==
      prev.value + [LayerOut(layer, Feed(prev.value, input, |prev.value|), exp).value]
  {
  }

  /** When the whole pass succeeds, so does every prefix of it, and its
      result is the corresponding prefix of the outputs. */
  lemma {:induction false} ForwardAllPrefix(layers: seq<Layer>, input: seq<real>, exp: Exp, i: nat)
    requires i <= |layers|
    requires ForwardAll(layers, input, exp).Ok?
    ensures ForwardAll(layers[..i], input, exp) == Ok(ForwardAll(layers, input, exp).value[..i])
    decreases |layers| - i
  {
    var outs := ForwardAll(layers, input, exp).value;
    if i == |layers| {
      assert layers[..i] == layers;
      assert outs[..i] == outs;
    } else {
      ForwardAllPrefix(layers, input, exp, i + 1);
      ForwardAllStep(layers, input, exp, i);
      var prev := ForwardAll(layers[..i], input, exp);
      ExtendOk(prev, layers[i], input, exp);
      var p := prev.value;
      var row := LayerOut(layers[i], Feed(p, input, |p|), exp).value;
      assert p + [row] == outs[..i + 1];
      assert p == (p + [row])[..|p|];
      assert outs[..i + 1][..i] == outs[..i];
    }
  }

  /** A layer that accepts its feed extends a successful run of the layers
      before it by its output row. */
  lemma ForwardAllGrow(layers: seq<Layer>, input: seq<real>, exp: Exp, i: nat, prefix: seq<seq<real>>, row: seq<real>)
    requires i < |layers|
    requires ForwardAll(layers[..i], input, exp) == Ok(prefix)
    requires LayerOut(layers[i], Feed(prefix, input, i), exp) == Ok(row)
    ensures ForwardAll(layers[..i + 1], input, exp) == Ok(prefix + [row])
  {
    ForwardAllStep(layers, input, exp, i);
  }

  /** A layer that rejects its feed makes the whole pass fail. */
  lemma ForwardAllStop(layers: seq<Layer>, input: seq<real>, exp: Exp, i: nat, prefix: seq<seq<real>>)
    requires i < |layers|
    requires ForwardAll(layers[..i], input, exp) == Ok(prefix)
    requires LayerOut(layers[i], Feed(prefix, input, i), exp).Err?
    ensures ForwardAll(layers, input, exp).Err?
  {
    ForwardAllStep(layers, input, exp, i);
    ForwardAllPrefixErr(layers, input, exp, i + 1);
  }

  /** A failure in the first i layers is a failure of the whole pass. */
  lemma ForwardAllPrefixErr(layers: seq<Layer>, input: seq<real>, exp: Exp, i: nat)
    requires i <= |layers|
    requires ForwardAll(layers[..i], input, exp).Err?
    ensures ForwardAll(layers, input, exp).Err?
  {
    if ForwardAll(layers, input, exp).Ok? {
      ForwardAllPrefix(layers, input, exp, i);
    }
  }

  /** Output j of layer 0 is neuron (0, j) applied to the whole input, and
      output j of layer i > 0 is neuron (i, j) applied to layer i - 1's output. */
  lemma {:induction false} ForwardAllEntry(layers: seq<Layer>, input: seq<real>, exp: Exp, i: nat, j: nat)
    requires ForwardAll(layers, input, exp).Ok?
    requires i < |layers| && j < |layers[i]|
    ensures var outs := ForwardAll(layers, input, exp).value;
      j < |outs[i]| && Output(layers[i][j], Feed(outs, input, i), exp) == Ok(outs[i][j])
  {
    var outs := ForwardAll(layers, input, exp).value;
    ForwardAllShape(layers, input, exp);
    ForwardAllPrefix(layers, input, exp, i);
    ForwardAllStep(layers, input, exp, i);
    var pre := outs[..i];
    assert Feed(pre, input, i) == Feed(outs, input, i);
    LayerOutSpec(layers[i], Feed(outs, input, i), exp);
    assert ForwardAll(layers[..i + 1], input, exp) == Ok(outs[..i + 1]) by {
      ForwardAllPrefix(layers, input, exp, i + 1);
    }
    assert outs[..i + 1][i] == outs[i];
  }

  /** Compatibility of a list of layers, peeled at the last layer. */
  lemma CompatibleSnoc(layers: seq<Layer>, inputWidth: nat)
    requires |layers| > 0
    ensures var k := |layers| - 1;
      Compatible(layers, inputWidth) <==>
        Compatible(layers[..k], inputWidth) && Fits(layers[k], FeedWidth(layers, inputWidth, k))
  {
    var k := |layers| - 1;
    var pre := layers[..k];
    assert forall i :: 0 <= i < k ==> pre[i] == layers[i] && FeedWidth(pre, inputWidth, i) == FeedWidth(layers, inputWidth, i);
  }

  /** An extension succeeds exactly when the run before it did and the new
      layer accepts its feed. */
  lemma ExtendOkIff(prev: Result<seq<seq<real>>>, layer: Layer, input: seq<real>, exp: Exp)
    ensures Extend(prev, layer, input, exp).Ok? <==>
      prev.Ok? && Fits(layer, |Feed(prev.value, input, |prev.value|)|)
  {
    if prev.Ok? {
      LayerOutSpec(layer, Feed(prev.value, input, |prev.value|), exp);
    }
  }

  /** The pass over all layers succeeds exactly when the pass over all but
      the last does and the last layer accepts the width it is fed. */
  lemma ForwardAllSnocOk(layers: seq<Layer>, input: seq<real>, exp: Exp)
    requires |layers| > 0
    ensures var k := |layers| - 1;
      ForwardAll(layers, input, exp).Ok? <==>
        ForwardAll(layers[..k], input, exp).Ok? && Fits(layers[k], FeedWidth(layers, |input|, k))
  {
    var k := |layers| - 1;
    var prev := ForwardAll(layers[..k], input, exp);
    ExtendOkIff(prev, layers[k], input, exp);
    if prev.Ok? {
      ForwardAllShape(layers[..k], input, exp);
      assert |Feed(prev.value, input, |prev.value|)| == FeedWidth(layers, |input|, k);
    }
  }

  /** The forward pass succeeds exactly when no neuron is fed more values
      than it has weights; the feed widths depend only on the layer widths. */
  lemma {:induction false} ForwardAllOkIff(layers: seq<Layer>, input: seq<real>, exp: Exp)
    ensures ForwardAll(layers, input, exp).Ok? <==> Compatible(layers, |input|)
    decreases |layers|
  {
    if |layers| > 0 {
      ForwardAllOkIff(layers[..|layers| - 1], input, exp);
      CompatibleSnoc(layers, |input|);
      ForwardAllSnocOk(layers, input, exp);
    }
  }
}
