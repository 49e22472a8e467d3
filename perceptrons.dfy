/** The network of perceptron.h: an object that owns its layers of neurons
    and the shared shift, with the two forward passes, error scoring and the
    reverse pass. Every operation writes caller-owned vectors; here each such
    vector is passed in as a value and its new contents are returned. */
module Perceptrons {
  import opened Common
  import opened Neurons
  import opened Layers
  import opened Backprop

  /** What `totalError` hands back: the return value and the
      partial-error vector it leaves behind. */
  datatype Score = Score(total: real, partialError: seq<real>)

  /** What `totalErrorAndGradients` hands back: its return value and the new
      contents of its three output vectors. */
  datatype Backward = Backward(total: real, partialError: seq<real>,
                               gradients: seq<seq<seq<real>>>, outs: seq<seq<real>>)

  /** The neurons of one layer built from their construction records, all
      with the network's shift. */
  function MakeLayer(pcds: seq<NeuronData>, phi: real): (layer: Layer)
    ensures |layer| == |pcds|
  {
    seq(|pcds|, j requires 0 <= j < |pcds| => Neuron(pcds[j].weights, pcds[j].theta, phi))
  }

  class Perceptron {
    const phi: real
    var neuronsArr: seq<Layer>
    var maxLayerSize: nat

    /** There is at least one layer and no layer is wider than the cached
        maximum, which sizes the delta buffers of the reverse pass. */
    ghost predicate Valid()
      reads this
    {
      |neuronsArr| > 0 &&
      forall i :: 0 <= i < |neuronsArr| ==> |neuronsArr[i]| <= maxLayerSize
    }

    /** Builds one layer per construction group, each neuron with its own
        weights and bias and the shared phi, and records the widest layer.
        The zero-layer error is raised by `Create`. */
    constructor (phi: real, pcdsArr: seq<seq<NeuronData>>)
      requires |pcdsArr| > 0
      ensures Valid()
      ensures this.phi == phi
      ensures |neuronsArr| == |pcdsArr|
      ensures forall i :: 0 <= i < |pcdsArr| ==> |neuronsArr[i]| == |pcdsArr[i]|
      ensures forall i, j :: 0 <= i < |pcdsArr| && 0 <= j < |pcdsArr[i]| ==>
        neuronsArr[i][j] == Neuron(pcdsArr[i][j].weights, pcdsArr[i][j].theta, phi)
      ensures forall i :: 0 <= i < |pcdsArr| ==> |pcdsArr[i]| <= maxLayerSize
      ensures exists i :: 0 <= i < |pcdsArr| && |pcdsArr[i]| == maxLayerSize
    {
      this.phi := phi;
      maxLayerSize := 0;
      new;
      var layerCount := |pcdsArr|;
      neuronsArr := seq(layerCount, _ => []);
      var i := 0;
      while i < layerCount
        invariant 0 <= i <= layerCount
        invariant |neuronsArr| == layerCount
        invariant forall k :: 0 <= k < i ==> neuronsArr[k] == MakeLayer(pcdsArr[k], phi)
        invariant forall k :: i <= k < layerCount ==> neuronsArr[k] == []
        invariant forall k :: 0 <= k < i ==> |pcdsArr[k]| <= maxLayerSize
        invariant i == 0 ==> maxLayerSize == 0
        invariant i > 0 ==> exists k :: 0 <= k < i && |pcdsArr[k]| == maxLayerSize
      {
        var pcds := pcdsArr[i];
        if maxLayerSize < |pcds| {
          maxLayerSize := |pcds|;
        }
        ghost var widest := maxLayerSize;
        var j := 0;
        while j < |pcds|
          invariant 0 <= j <= |pcds|
          invariant maxLayerSize == widest
          invariant |neuronsArr| == layerCount
          invariant neuronsArr[i] == MakeLayer(pcds[..j], phi)
          invariant forall k :: 0 <= k < i ==> neuronsArr[k] == MakeLayer(pcdsArr[k], phi)
          invariant forall k :: i < k < layerCount ==> neuronsArr[k] == []
        {
          assert MakeLayer(pcds[..j + 1], phi) == MakeLayer(pcds[..j], phi) + [Neuron(pcds[j].weights, pcds[j].theta, phi)];
          neuronsArr := neuronsArr[i := neuronsArr[i] + [Neuron(pcds[j].weights, pcds[j].theta, phi)]];
          j := j + 1;
        }
        assert pcds[..j] == pcds;
        i := i + 1;
      }
    }

    /** The double-buffer forward pass: two scratch vectors are swapped after
        every layer, and only the first `prevLayerSize` entries of the feeding
        buffer are read, whatever its size. The result is the last layer's
        output of the all-layers pass, and it fails exactly when that does. */
    method Process(input: seq<real>, out: seq<real>, exp: Exp) returns (r: Result<seq<real>>)
      requires Valid()
      ensures r.Ok? <==> ForwardAll(neuronsArr, input, exp).Ok?
      ensures r.Err? ==> r.error == InvalidInputSize
      ensures r.Ok? ==> r.value == Last(ForwardAll(neuronsArr, input, exp).value)
      ensures r.Ok? ==> |r.value| == |Last(neuronsArr)|
    {
      r := ForwardBuffered(neuronsArr, maxLayerSize, input, out, exp);
    }

    /** The all-layers forward pass: entry i of the result is layer i's
        output, computed from the input for layer 0 and from entry i - 1
        otherwise, whatever the caller's vector held before. */
    method ProcessLayers(input: seq<real>, out: seq<seq<real>>, exp: Exp) returns (r: Result<seq<seq<real>>>)
      requires Valid()
      ensures r == ForwardAll(neuronsArr, input, exp)
    {
      r := ForwardLayers(neuronsArr, input, out, exp);
    }

    /** Squared-error scoring: an expected vector of the wrong width is
        rejected before anything runs; otherwise the partial errors are
        (actual - expected)^2 per output and the total is their sum. */
    method TotalError(input: seq<real>, expected: seq<real>, partialError: seq<real>, exp: Exp)
      returns (r: Result<Score>)
      requires Valid()
      ensures |expected| != |Last(neuronsArr)| ==> r == Err(OutputSizeMismatch)
      ensures |expected| == |Last(neuronsArr)| ==> (r.Ok? <==> ForwardAll(neuronsArr, input, exp).Ok?)
      ensures |expected| == |Last(neuronsArr)| && r.Err? ==> r.error == InvalidInputSize
      ensures r.Ok? ==> r.value.partialError == SquaredErrors(Last(ForwardAll(neuronsArr, input, exp).value), expected)
      ensures r.Ok? ==> r.value.total == Sum(r.value.partialError)
    {
      var outputCount := |neuronsArr[|neuronsArr| - 1]|;
      if |expected| != outputCount {
        return Err(OutputSizeMismatch);
      }
      var fwd := Process(input, partialError, exp);
      if fwd.Err? {
        return Err(fwd.error);
      }
      var err, pe := SquaredErrorSum(fwd.value, expected);
      return Ok(Score(err, pe));
    }

    /** The reverse pass. The forward pass runs first and any oversize feed
        aborts it. The partial errors end as the squared raw errors followed
        by the squares of any stale entries beyond the output width, and the
        total is their sum; the gradient tensor is the one `Gradients`
        describes, keeping stale entries past each feed's width. The source
        indexes the expected and partial-error vectors without checking their
        widths, so the model makes those widths preconditions. */
    method TotalErrorAndGradients(input: seq<real>, expected: seq<real>, partialError: seq<real>,
                                  errorGradients: seq<seq<seq<real>>>, out: seq<seq<real>>, exp: Exp)
      returns (r: Result<Backward>)
      requires Valid()
      requires |Last(neuronsArr)| <= |expected|
      requires |Last(neuronsArr)| <= |partialError|
      ensures r.Ok? <==> ForwardAll(neuronsArr, input, exp).Ok?
      ensures r.Err? ==> r.error == InvalidInputSize
      ensures r.Ok? ==> r.value.outs == ForwardAll(neuronsArr, input, exp).value
      ensures r.Ok? ==> r.value.partialError == FinalPartialErrors(partialError, Last(r.value.outs), expected)
      ensures r.Ok? ==> r.value.total == Sum(r.value.partialError)
      ensures r.Ok? ==> (Shaped(neuronsArr, input, r.value.outs) &&
        r.value.gradients == Gradients(errorGradients, neuronsArr, input, r.value.outs, expected))
    {
      var totalError := 0.0;
      var layerCount := |neuronsArr|;
      var fwd := ProcessLayers(input, out, exp);
      if fwd.Err? {
        return Err(fwd.error);
      }
      var outs := fwd.value;
      ForwardAllOkIff(neuronsArr, input, exp);
      ForwardAllShape(neuronsArr, input, exp);
      assert Shaped(neuronsArr, input, outs);
      var pe := WriteRawErrors(partialError, expected, outs[layerCount - 1]);
      var grads := ReversePass(neuronsArr, maxLayerSize, input, outs, expected, pe, errorGradients);

      // square every entry of the partial-error buffer and add it up
      totalError, pe := SquareAndSum(pe);
      assert pe == FinalPartialErrors(partialError, Last(outs), expected);
      return Ok(Backward(totalError, pe, grads, outs));
    }
  }

  /** The all-layers forward pass over a layer array: the caller's vector
      is resized to one row per layer, row 0 is computed from the input and
      row i from row i - 1, and the first rejected feed aborts the pass. */
  method ForwardLayers(layers: seq<Layer>, input: seq<real>, out: seq<seq<real>>, exp: Exp)
    returns (r: Result<seq<seq<real>>>)
    requires |layers| > 0
    ensures r == ForwardAll(layers, input, exp)
  {
    var layerCount := |layers|;
    var outs := Resize(out, layerCount, []);
    var first := ProcessLayer(layers[0], outs[0], input, |input|, exp);
    assert layers[..0] == [];
    if first.Err? {
      ForwardAllStop(layers, input, exp, 0, []);
      return Err(first.error);
    }
    ForwardAllGrow(layers, input, exp, 0, [], first.value);
    outs := outs[0 := first.value];
    ghost var prefix := [first.value];
    assert [] + [first.value] == prefix;
    var i := 1;
    while i < layerCount
      invariant 1 <= i <= layerCount
      invariant |outs| == layerCount && |prefix| == i
      invariant ForwardAll(layers[..i], input, exp) == Ok(prefix)
      invariant forall k :: 0 <= k < i ==> outs[k] == prefix[k]
    {
      var row := ProcessLayer(layers[i], outs[i], outs[i - 1], |outs[i - 1]|, exp);
      assert Feed(prefix, input, i) == outs[i - 1];
      if row.Err? {
        ForwardAllStop(layers, input, exp, i, prefix);
        return Err(row.error);
      }
      ForwardAllGrow(layers, input, exp, i, prefix, row.value);
      outs := outs[i := row.value];
      prefix := prefix + [row.value];
      i := i + 1;
    }
    assert layers[..layerCount] == layers;
    assert outs == prefix;
    return Ok(outs);
  }

  /** The double-buffer forward pass over a layer array whose widest layer
      has `width` neurons: the feeding buffer is at least that large, only
      its first `prevLayerSize` entries are read, and the two buffers swap
      after each layer. */
  method ForwardBuffered(layers: seq<Layer>, width: nat, input: seq<real>, out: seq<real>, exp: Exp)
    returns (r: Result<seq<real>>)
    requires |layers| > 0
    ensures r.Ok? <==> ForwardAll(layers, input, exp).Ok?
    ensures r.Err? ==> r.error == InvalidInputSize
    ensures r.Ok? ==> r.value == Last(ForwardAll(layers, input, exp).value)
    ensures r.Ok? ==> |r.value| == |Last(layers)|
  {
    var oldOut := input;
    var prevLayerSize := |input|;
    oldOut := Resize(oldOut, if width > |input| then width else |input|, 0.0);
    var buf := Resize(out, width, 0.0);
    assert oldOut[..prevLayerSize] == input;
    assert layers[..0] == [];
    ghost var prefix: seq<seq<real>> := [];
    var i := 0;
    while i < |layers|
      invariant 0 <= i <= |layers|
      invariant |prefix| == i
      invariant ForwardAll(layers[..i], input, exp) == Ok(prefix)
      invariant prevLayerSize <= |oldOut|
      invariant oldOut[..prevLayerSize] == Feed(prefix, input, i)
      invariant i > 0 ==> oldOut == prefix[i - 1]
    {
      var row := ProcessLayer(layers[i], buf, oldOut, prevLayerSize, exp);
      if row.Err? {
        ForwardAllStop(layers, input, exp, i, prefix);
        return Err(row.error);
      }
      ForwardAllGrow(layers, input, exp, i, prefix, row.value);
      prefix := prefix + [row.value];
      buf := row.value;
      prevLayerSize := |layers[i]|;
      oldOut, buf := buf, oldOut;
      i := i + 1;
      assert oldOut[..prevLayerSize] == oldOut;
    }
    assert layers[..i] == layers;
    return Ok(oldOut);
  }

  /** The two delta loops of the reverse pass, given the forward outputs and
      the raw errors already in the partial-error buffer: the output layer
      first, then the hidden layers from last to first, each reading the
      deltas its successor left in the swapped delta buffer, which is
      `width` entries long. */
  method ReversePass(layers: seq<Layer>, width: nat, input: seq<real>, outs: seq<seq<real>>, expected: seq<real>,
                       pe: seq<real>, errorGradients: seq<seq<seq<real>>>)
    returns (grads: seq<seq<seq<real>>>)
    requires |layers| > 0 && forall i :: 0 <= i < |layers| ==> |layers[i]| <= width
    requires Shaped(layers, input, outs)
    requires |Last(layers)| <= |expected| && |Last(layers)| <= |pe|
    requires pe[..|Last(layers)|] == RawErrors(expected, Last(outs))
    ensures grads == Gradients(errorGradients, layers, input, outs, expected)
  {
    var layerCount := |layers|;
    var deltas := seq(width, _ => 0.0);
    var succDeltas := seq(width, _ => 0.0);

    // the output layer
    var lg, ds := OutputStep(layers, width, input, outs, expected, pe, errorGradients,
                             Resize(errorGradients, layerCount, [])[layerCount - 1], deltas);

    // the hidden layers, last to first
    TargetsHold(errorGradients, layers, input, outs, expected);
    PendingStart(lg, ds, errorGradients, layers, input, outs, expected);
    grads := HiddenLayers(layers, width, input, outs,
                          Resize(errorGradients, layerCount, [])[layerCount - 1 := lg], ds, succDeltas,
                          Gradients(errorGradients, layers, input, outs, expected),
                          AllDeltas(layers, input, outs, expected), Resize(errorGradients, layerCount, []));
  }

  /** The hidden-layer loop of the reverse pass, from the last hidden layer
      to the first: the delta buffers are swapped, so that layer l + 1's
      deltas are read from the successor buffer while layer l's are
      written, and layer l's entry of the gradient tensor is filled in. */
  method HiddenLayers(layers: seq<Layer>, width: nat, input: seq<real>, outs: seq<seq<real>>, grads0: seq<seq<seq<real>>>,
                      deltas0: seq<real>, succDeltas0: seq<real>,
                      ghost G: seq<seq<seq<real>>>, ghost D: seq<seq<real>>, ghost base: seq<seq<seq<real>>>)
    returns (grads: seq<seq<seq<real>>>)
    requires forall i :: 0 <= i < |layers| ==> |layers[i]| <= width
    requires Targets(G, D, base, layers, input, outs)
    requires |deltas0| == width && |succDeltas0| == width
    requires Pending(grads0, deltas0, G, D, base, |layers| - 2)
    ensures grads == G
  {
    grads := grads0;
    var deltas := deltas0;
    var succDeltas := succDeltas0;
    var layerIndex := |layers| - 2;
    while layerIndex >= 0
      invariant |deltas| == width && |succDeltas| == width
      invariant Pending(grads, deltas, G, D, base, layerIndex)
      decreases layerIndex + 1
    {
      deltas, succDeltas := succDeltas, deltas;
      grads, deltas := HiddenStep(layers, width, input, outs, layerIndex,
                                  grads, deltas, succDeltas, G, D, base);
      layerIndex := layerIndex - 1;
    }
    PendingDone(grads, deltas, G, D, base);
  }

  /** The output layer's step of the reverse pass, stated against the
      specification: its deltas and its entry of the gradient tensor. */
  method OutputStep(layers: seq<Layer>, width: nat, input: seq<real>, outs: seq<seq<real>>, expected: seq<real>, pe: seq<real>,
                    errorGradients: seq<seq<seq<real>>>, layerGrads: seq<seq<real>>, deltas: seq<real>)
    returns (lg: seq<seq<real>>, ds: seq<real>)
    requires |layers| > 0 && forall i :: 0 <= i < |layers| ==> |layers[i]| <= width
    requires Shaped(layers, input, outs)
    requires |Last(layers)| <= |expected| && |Last(layers)| <= |pe|
    requires pe[..|Last(layers)|] == RawErrors(expected, Last(outs))
    requires layerGrads == Resize(errorGradients, |layers|, [])[|layers| - 1]
    requires |deltas| == width
    ensures |ds| == width
    ensures |Last(layers)| <= width
    ensures ds[..|Last(layers)|] == Deltas(layers, input, outs, expected, |layers| - 1)
    ensures lg == Gradients(errorGradients, layers, input, outs, expected)[|layers| - 1]
  {
    var layerCount := |layers|;
    var inputLayer := if layerCount == 1 then input else outs[layerCount - 2];
    assert inputLayer == Feed(outs, input, layerCount - 1);
    GradientsAt(errorGradients, layers, input, outs, expected, layerCount - 1);
    DeltasAt(layers, input, outs, expected, layerCount - 1);
    lg, ds := OutputLayerPass(layerGrads, deltas, pe, layers[layerCount - 1],
                              outs[layerCount - 1], inputLayer);
  }

  /** Hidden layer l's step of the reverse pass, given layer l + 1's deltas
      in the successor buffer: layer l's deltas go into the delta buffer and
      its specified gradients into entry l of the tensor. */
  method HiddenStep(layers: seq<Layer>, width: nat, input: seq<real>, outs: seq<seq<real>>, l: nat, grads: seq<seq<seq<real>>>,
                    deltas: seq<real>, succDeltas: seq<real>,
                    ghost G: seq<seq<seq<real>>>, ghost D: seq<seq<real>>, ghost base: seq<seq<seq<real>>>)
    returns (grads': seq<seq<seq<real>>>, ds: seq<real>)
    requires forall i :: 0 <= i < |layers| ==> |layers[i]| <= width
    requires Targets(G, D, base, layers, input, outs)
    requires Pending(grads, succDeltas, G, D, base, l)
    requires |deltas| == width
    ensures |ds| == width
    ensures Pending(grads', ds, G, D, base, l - 1)
  {
    var feed := if l == 0 then input else outs[l - 1];
    assert feed == Feed(outs, input, l);
    var lg;
    lg, ds := HiddenLayerPass(grads[l], deltas, succDeltas, layers[l], layers[l + 1], outs[l], feed);
    PendingStep(grads, lg, succDeltas, ds, G, D, base, l);
    grads' := grads[l := lg];
  }

  /** Creating a perceptron from zero layers is an error; otherwise the
      constructor runs. */
  method Create(phi: real, pcdsArr: seq<seq<NeuronData>>) returns (r: Result<Perceptron>)
    ensures r.Err? <==> |pcdsArr| == 0
    ensures r.Err? ==> r.error == EmptyNetwork
    ensures r.Ok? ==> fresh(r.value) && r.value.Valid() && r.value.phi == phi
    ensures r.Ok? ==> |r.value.neuronsArr| == |pcdsArr|
    ensures r.Ok? ==> forall i :: 0 <= i < |pcdsArr| ==> r.value.neuronsArr[i] == MakeLayer(pcdsArr[i], phi)
    ensures r.Ok? ==> exists i :: 0 <= i < |pcdsArr| && |pcdsArr[i]| == r.value.maxLayerSize
  {
    if |pcdsArr| == 0 {
      return Err(EmptyNetwork);
    }
    var p := new Perceptron(phi, pcdsArr);
    return Ok(p);
  }

  lemma SquareOf(x: real, y: real)
    requires x == y
    ensures x * x == Square(y)
  {
  }

  /** The raw-error loop of the reverse pass: e_i = expected_i - actual_i
      into the first |actual| entries of the caller's buffer, the rest left
      as they were. */
  method WriteRawErrors(partialError: seq<real>, expected: seq<real>, actual: seq<real>) returns (pe: seq<real>)
    requires |actual| <= |expected| && |actual| <= |partialError|
    ensures |pe| == |partialError|
    ensures pe == RawErrors(expected, actual) + partialError[|actual|..]
    ensures pe[..|actual|] == RawErrors(expected, actual)
  {
    pe := partialError;
    var i := 0;
    while i < |actual|
      invariant 0 <= i <= |actual|
      invariant |pe| == |partialError|
      invariant forall k :: 0 <= k < i ==> pe[k] == expected[k] - actual[k]
      invariant forall k :: i <= k < |pe| ==> pe[k] == partialError[k]
    {
      pe := pe[i := expected[i] - actual[i]];
      i := i + 1;
    }
    assert pe == RawErrors(expected, actual) + partialError[|actual|..];
  }

  /** The scoring loop of `totalError`, run in the buffer that holds the
      network's output: each entry becomes (actual - expected)^2 and is
      added to the total. */
  method SquaredErrorSum(actual: seq<real>, expected: seq<real>) returns (total: real, pe: seq<real>)
    requires |actual| == |expected|
    ensures pe == SquaredErrors(actual, expected)
    ensures total == Sum(pe)
  {
    pe := actual;
    total := 0.0;
    var i := 0;
    while i < |actual|
      invariant 0 <= i <= |actual|
      invariant |pe| == |actual|
      invariant forall k :: 0 <= k < i ==> pe[k] == Square(actual[k] - expected[k])
      invariant forall k :: i <= k < |pe| ==> pe[k] == actual[k]
      invariant total == Sum(pe[..i])
    {
      var tmp := pe[i] - expected[i];
      SquareOf(tmp, actual[i] - expected[i]);
      tmp := tmp * tmp;
      ghost var before := pe;
      pe := pe[i := tmp];
      SumStep(before, pe, i);
      total := total + tmp;
      i := i + 1;
    }
    assert pe[..i] == pe;
    ghost var spec := SquaredErrors(actual, expected);
    forall k | 0 <= k < |actual|
      ensures pe[k] == spec[k]
    {
      SquaredErrorsAt(actual, expected, k);
    }
  }

  /** The final loop of the reverse pass: every entry of the buffer, stale
      ones included, is squared in place and added to the total. */
  method SquareAndSum(pe: seq<real>) returns (total: real, squared: seq<real>)
    ensures squared == Squares(pe)
    ensures total == Sum(squared)
  {
    total := 0.0;
    squared := pe;
    var k := 0;
    while k < |squared|
      invariant 0 <= k <= |squared|
      invariant |squared| == |pe|
      invariant forall m :: 0 <= m < k ==> squared[m] == Square(pe[m])
      invariant forall m :: k <= m < |squared| ==> squared[m] == pe[m]
      invariant total == Sum(squared[..k])
    {
      ghost var before := squared;
      SquareOf(squared[k], pe[k]);
      squared := squared[k := squared[k] * squared[k]];
      SumStep(before, squared, k);
      total := total + squared[k];
      k := k + 1;
    }
    assert squared[..k] == squared;
  }

  /** Overwriting entry i of a vector extends the sum of its first i
      entries by the new value. */
  lemma SumStep(before: seq<real>, after: seq<real>, i: nat)
    requires i < |before| == |after|
    requires forall k :: 0 <= k < |before| && k != i ==> after[k] == before[k]
    ensures Sum(after[..i + 1]) == Sum(before[..i]) + after[i]
  {
    assert after[..i + 1][..i] == before[..i];
  }

  /** One layer's loop of `process` calls: the output vector is resized to
      the layer width and entry j set to neuron j's output on the first
      `feedLen` entries of `feed`; the first neuron that rejects the feed
      aborts the loop. */
  method ProcessLayer(layer: Layer, row: seq<real>, feed: seq<real>, feedLen: nat, exp: Exp)
    returns (r: Result<seq<real>>)
    requires feedLen <= |feed|
    ensures r == LayerOut(layer, feed[..feedLen], exp)
    ensures feedLen == |feed| ==> r == LayerOut(layer, feed, exp)
  {
    assert feedLen == |feed| ==> feed[..feedLen] == feed;
    var layerSize := |layer|;
    var out := Resize(row, layerSize, 0.0);
    var i := 0;
    assert layer[..0] == [];
    while i < layerSize
      invariant 0 <= i <= layerSize
      invariant |out| == layerSize
      invariant LayerOut(layer[..i], feed[..feedLen], exp) == Ok(out[..i])
    {
      var y := Neurons.Process(layer[i], feed, 0, feedLen, exp);
      if y.Err? {
        LayerOutStop(layer, feed[..feedLen], exp, i);
        return Err(y.error);
      }
      LayerOutStep(layer, feed[..feedLen], exp, i, out[..i], y.value);
      UpdatePrefix(out, i, y.value);
      out := out[i := y.value];
      i := i + 1;
    }
    assert layer[..i] == layer;
    assert out[..i] == out;
    return Ok(out);
  }

  /** One neuron's gradient write: resize to 1 + wgCount (new entries 0),
      entry 0 gets -2 * delta and entry 1 + j gets -2 * delta * feed[j]. */
  method WriteNeuronGradient(target: seq<real>, wgCount: nat, delta: real, feed: seq<real>)
    returns (g: seq<real>)
    requires |feed| <= wgCount
    ensures g == NeuronGradient(target, wgCount, delta, feed)
  {
    g := Resize(target, 1 + wgCount, 0.0);
    ghost var base := g;
    g := g[0 := -2.0 * delta];
    var inputCount := |feed|;
    var j := 0;
    while j < inputCount
      invariant 0 <= j <= inputCount
      invariant |g| == 1 + wgCount
      invariant g[0] == -2.0 * delta
      invariant forall k :: 1 <= k <= j ==> g[k] == -2.0 * delta * feed[k - 1]
      invariant forall k :: j < k < |g| ==> g[k] == base[k]
    {
      g := g[1 + j := -2.0 * delta * feed[j]];
      j := j + 1;
    }
    ghost var spec := NeuronGradient(target, wgCount, delta, feed);
    assert forall k :: 0 <= k < |g| ==> g[k] == spec[k];
  }

  /** The inner delta loop of a hidden neuron: sum over the next layer of
      succDeltas[k] times the weight neuron k gives to this neuron's
      position. Only the first |next| entries of the buffer are read. */
  method BackpropagatedSum(succDeltas: seq<real>, next: Layer, neuronIndex: nat) returns (delta: real)
    requires |next| <= |succDeltas|
    requires Fits(next, neuronIndex + 1)
    ensures delta == BackSum(succDeltas[..|next|], next, neuronIndex)
  {
    delta := 0.0;
    var k := 0;
    while k < |next|
      invariant 0 <= k <= |next|
      invariant delta == BackSum(succDeltas[..k], next[..k], neuronIndex)
    {
      assert succDeltas[..k + 1][..k] == succDeltas[..k];
      assert next[..k + 1][..k] == next[..k];
      delta := delta + succDeltas[k] * next[k].weights[neuronIndex];
      k := k + 1;
    }
    assert next[..k] == next;
  }

  /** The output layer's neuron loop: delta_i = e_i * 2 * y_i * (1 - y_i)
      into the delta buffer, and the neuron's gradients. Delta buffer
      entries past the layer width are left as they were. */
  method OutputLayerPass(layerGrads: seq<seq<real>>, deltas: seq<real>, partialError: seq<real>,
                         layer: Layer, y: seq<real>, feed: seq<real>)
    returns (lg: seq<seq<real>>, ds: seq<real>)
    requires |y| == |layer| <= |deltas|
    requires |layer| <= |partialError|
    requires Fits(layer, |feed|)
    ensures |ds| == |deltas|
    ensures ds[..|layer|] == OutputDeltas(partialError[..|layer|], y)
    ensures ds[|layer|..] == deltas[|layer|..]
    ensures lg == LayerGradients(layerGrads, layer, OutputDeltas(partialError[..|layer|], y), feed)
  {
    var outputCount := |layer|;
    ghost var D := OutputDeltas(partialError[..outputCount], y);
    lg := Resize(layerGrads, outputCount, []);
    ghost var base := lg;
    ds := deltas;
    var i := 0;
    while i < outputCount
      invariant 0 <= i <= outputCount
      invariant |lg| == outputCount && |ds| == |deltas|
      invariant forall k :: 0 <= k < i ==> ds[k] == D[k]
      invariant forall k :: i <= k < |ds| ==> ds[k] == deltas[k]
      invariant forall k :: 0 <= k < i ==> lg[k] == NeuronGradient(base[k], |layer[k].weights|, D[k], feed)
      invariant forall k :: i <= k < outputCount ==> lg[k] == base[k]
    {
      var wgCount := |layer[i].weights|;
      var delta := partialError[i] * 2.0 * y[i] * (1.0 - y[i]);
      ds := ds[i := delta];
      var g := WriteNeuronGradient(lg[i], wgCount, delta, feed);
      lg := lg[i := g];
      i := i + 1;
    }
    assert ds[..outputCount] == D;
    assert lg == LayerGradients(layerGrads, layer, D, feed);
  }

  /** A hidden layer's neuron loop: delta_j = (sum over the next layer of
      succDelta_k * w_{k,j}) * y_j * (1 - y_j) into the delta buffer, and the
      neuron's gradients. Delta buffer entries past the layer width are left
      as they were. */
  method HiddenLayerPass(layerGrads: seq<seq<real>>, deltas: seq<real>, succDeltas: seq<real>,
                         layer: Layer, next: Layer, y: seq<real>, feed: seq<real>)
    returns (lg: seq<seq<real>>, ds: seq<real>)
    requires |y| == |layer| <= |deltas|
    requires |next| <= |succDeltas|
    requires Fits(next, |layer|)
    requires Fits(layer, |feed|)
    ensures |ds| == |deltas|
    ensures ds[..|layer|] == HiddenDeltas(succDeltas[..|next|], next, y)
    ensures ds[|layer|..] == deltas[|layer|..]
    ensures lg == LayerGradients(layerGrads, layer, HiddenDeltas(succDeltas[..|next|], next, y), feed)
  {
    var neuronCount := |layer|;
    ghost var D := HiddenDeltas(succDeltas[..|next|], next, y);
    lg := Resize(layerGrads, neuronCount, []);
    ghost var base := lg;
    ds := deltas;
    var neuronIndex := 0;
    while neuronIndex < neuronCount
      invariant 0 <= neuronIndex <= neuronCount
      invariant |lg| == neuronCount && |ds| == |deltas|
      invariant forall k :: 0 <= k < neuronIndex ==> ds[k] == D[k]
      invariant forall k :: neuronIndex <= k < |ds| ==> ds[k] == deltas[k]
      invariant forall k :: 0 <= k < neuronIndex ==> lg[k] == NeuronGradient(base[k], |layer[k].weights|, D[k], feed)
      invariant forall k :: neuronIndex <= k < neuronCount ==> lg[k] == base[k]
    {
      var wgCount := |layer[neuronIndex].weights|;
      var delta := BackpropagatedSum(succDeltas, next, neuronIndex);
      var out := y[neuronIndex];
      delta := delta * (out * (1.0 - out));
      ds := ds[neuronIndex := delta];
      var g := WriteNeuronGradient(lg[neuronIndex], wgCount, delta, feed);
      lg := lg[neuronIndex := g];
      neuronIndex := neuronIndex + 1;
    }
    assert ds[..neuronCount] == D;
    assert lg == LayerGradients(layerGrads, layer, D, feed);
  }
}
