# A verified model of the rbnns feed-forward network engine

This project models the network engine in the two headers `neuron.h` and
`perceptron.h`. It covers:

- the neuron primitive: `fnet`, `fact` and `process`;
- the perceptron:
  - its constructor;
  - the double-buffer and all-layers forward passes;
  - squared-error scoring in `totalError`;
  - the reverse pass in `totalErrorAndGradients`, which fills a
    `[layer][neuron][1 + weight]` gradient tensor.

Modelling conventions:

- `float` is modelled as `real`.
- `std::exp` is an abstract function that is positive everywhere (`Common.Exp`).
  It is passed to every operation that evaluates a neuron.
- A thrown `std::runtime_error` is an `Err` result carrying one of the three
  error kinds (`Common.Error`).
- Every caller-owned `std::vector` is passed in as a value, and on a
  successful call its new contents are returned. A failed call returns only
  the error. `std::vector::resize` is `Common.Resize`.

Modules:

- `Common` (common.dfy): error and result types, the positive exponential,
  summation and `resize`.
- `Neurons` (neurons.dfy): the neuron. `fnet` is a loop proved against the
  closed form `Net`. `process` is proved against `Output`.
- `Layers` (layers.dfy): the forward pass as a specification:
  - `LayerOut`: one layer applied to its feed;
  - `ForwardAll`: every layer, the first fed by the input and each later one
    by its predecessor;
  - `Compatible`: the exact condition under which the pass raises no error.
- `Backprop` (backprop.dfy): the specification of the scoring and reverse
  pass:
  - squared errors;
  - the partial-error buffer after the reverse pass;
  - output and hidden deltas;
  - the gradient tensor.
- `Perceptrons` (perceptrons.dfy): the `perceptron` class with its fields
  `phi`, `neuronsArr` and `maxLayerSize`, and every loop of `perceptron.h`.
  Each loop is a method with invariants, proved against the specification
  functions above.

In three places the code differs from what a textbook network would do. The
model follows the code:

- `fnet` never advances its weight iterator (neuron.h:35-38). Every input is
  multiplied by `weights[0]`. The net input is therefore
  `-theta + weights[0] * Σ inputs`, not a dot product. For the five-input
  example with weights 1, 4, 1, 0.15, 67 this gives 1.31, not 1.72
  (`Neurons.SingleNeuronExample`).
- `totalErrorAndGradients` squares each raw error once (perceptron.h:128,
  198-202). Its total is a plain sum of squares, not a sum of fourth powers.
- `totalErrorAndGradients` neither checks the length of `expectedOutput` nor
  resizes `partialError`. Any entries of `partialError` past the output
  width keep their stale values, and those are squared and added to the
  total as well (`Backprop.FinalPartialErrors`, `Backprop.ErrorTotalsCompare`).

## Model

| member | source | states |
|---|---|---|
| Neurons.Fnet | neuron.h:26-41 | the loop returns `Net`: an error exactly when the range is longer than the weight vector, else `-theta + weights[0] * sum of the inputs` |
| Neurons.NetFailure | neuron.h:28-33 | fnet fails exactly when there are more inputs than weights, always with the input-size error; an empty input gives exactly `-theta` |
| Neurons.NetIgnoresLaterWeights | neuron.h:35-38 | weight vectors that agree on their first entry and are long enough give the same net input: weights after the first are never read |
| Neurons.NetAppend | neuron.h:35-38 | appending an input x adds `weights[0] * x` to the net input |
| Neurons.SingleNeuronExample | neuron.h:35-38 | the five-input example has net input 1.31 |
| Neurons.Fact | neuron.h:42-45 | the shifted sigmoid lies strictly between -1 and 1 |
| Neurons.Output | neuron.h:48-55 | `process` succeeds exactly when the inputs fit the weights, fails with the input-size error otherwise, and its value lies strictly between -1 and 1 |
| Neurons.Process | neuron.h:48-55 | `process` over a range returns `fact(fnet(range, weights, theta), phi)` with the neuron's own fields |
| Layers.LayerOut | perceptron.h:58-63 | a successful layer has one output per neuron; a failure is the input-size error |
| Layers.LayerOutSpec | perceptron.h:58-63 | a layer succeeds exactly when every neuron has at least as many weights as the feed has entries, and output j is then neuron j's `process` on the whole feed |
| Layers.ForwardAll | perceptron.h:71-92 | a successful all-layers pass has one row per layer; a failure is the input-size error |
| Layers.ForwardAllShape | perceptron.h:77-90 | row i of a successful pass is as wide as layer i |
| Layers.ForwardAllEntry | perceptron.h:79-90 | `out[0][j]` is neuron (0, j) on the whole input and `out[i][j]` is neuron (i, j) on `out[i - 1]` |
| Layers.ForwardAllOkIff | perceptron.h:79-90 | the forward pass succeeds exactly when no neuron is fed more values than it has weights (layer 0 the input width, layer i the width of layer i - 1) |
| Layers.ForwardAllPrefix | perceptron.h:83-91 | when the pass succeeds, the pass over the first i layers succeeds with the first i rows |
| Layers.ForwardAllPrefixErr | perceptron.h:83-91 | a failure within the first i layers is a failure of the whole pass |
| Layers.ExtendOkIff | perceptron.h:83-91 | running one more layer succeeds exactly when the run before it did and the new layer accepts its feed |
| Backprop.SquaredErrors | perceptron.h:101-107 | `totalError`'s partial errors have the output width and are all nonnegative |
| Backprop.FinalPartialErrors | perceptron.h:125-129 | after the reverse pass the partial-error buffer keeps its length |
| Backprop.Deltas | perceptron.h:144 | layer l's delta vector is as wide as layer l |
| Backprop.DeltasAt | perceptron.h:144 | output deltas come from the raw errors; a hidden layer's deltas come from the next layer's, and every weight read there exists |
| Backprop.OutputDeltaEntry | perceptron.h:126-145 | output neuron j's delta is `e_j * 2 * y_j * (1 - y_j)` with `e_j = expected_j - actual_j` |
| Backprop.HiddenDeltaEntry | perceptron.h:176-184 | hidden neuron j's delta is the next layer's deltas weighted by the weights its neurons give position j, times `y_j * (1 - y_j)`; every such weight exists |
| Backprop.Gradients | perceptron.h:119 | the gradient tensor has one entry per layer |
| Backprop.GradientsAt | perceptron.h:132-193 | entry l of the tensor is layer l's gradients from its deltas and feed, and that feed fits every neuron of layer l |
| Backprop.GradientNeuron | perceptron.h:168-174 | entry [l][j] is neuron j's gradient vector, computed from the caller's old vector at that position or an empty one |
| Backprop.LayerGradients | perceptron.h:166-174 | a layer's gradient entry has one vector per neuron |
| Backprop.NeuronGradient | perceptron.h:172-174 | one neuron's gradient vector has `1 + weightCount` entries |
| Backprop.NeuronGradientAt | perceptron.h:140-154 | entry 0 is `-2*delta`; entry `1+j` is `-2*delta*feed[j]` below the feed width; later entries keep their old value, or 0 if new |
| Backprop.ErrorRoutinesAgree | perceptron.h:101-107 | after the reverse pass the first output-width partial errors equal `totalError`'s squared errors; the stale entries after them are squared |
| Backprop.ErrorTotalsCompare | perceptron.h:198-203 | the reverse pass's total is `totalError`'s total plus the squares of the stale entries: never smaller, and equal when the buffer is exactly the output width |
| Backprop.ErrorTotalsNonnegative | perceptron.h:100-107 | both error totals are nonnegative |
| Perceptrons.MakeLayer | perceptron.h:37-40 | one neuron per construction record |
| Perceptrons.Perceptron.constructor | perceptron.h:24-42 | one layer per group, neuron (i, j) with record (i, j)'s weights and theta and the shared phi, `maxLayerSize` the widest layer |
| Perceptrons.Create | perceptron.h:27-41 | zero layers is the empty-network error; otherwise one layer per construction group, built by `MakeLayer`, with the cached maximum equal to the widest group's width |
| Perceptrons.Perceptron.Process | perceptron.h:45-69 | the double-buffer pass fails exactly when the all-layers pass does, with the input-size error, and otherwise returns its last row, as wide as the last layer |
| Perceptrons.ForwardBuffered | perceptron.h:48-68 | the swap loop, reading only the first `prevLayerSize` buffer entries, computes the last row of the all-layers pass or fails when it fails |
| Perceptrons.Perceptron.ProcessLayers | perceptron.h:71-92 | the all-layers pass returns exactly `ForwardAll`, whatever the caller's vector held |
| Perceptrons.ForwardLayers | perceptron.h:74-91 | the layer-0 loop and the loop over later layers compute exactly `ForwardAll` |
| Perceptrons.ProcessLayer | perceptron.h:58-63 | one layer's neuron loop over the first `feedLen` feed entries returns `LayerOut` of that prefix, aborting at the first rejected feed |
| Perceptrons.Perceptron.TotalError | perceptron.h:94-109 | a wrong-width expected vector is the size-mismatch error; otherwise the call fails exactly when the forward pass does, and the partial errors are the squared errors of the last row with their sum as total |
| Perceptrons.SquaredErrorSum | perceptron.h:100-107 | the scoring loop leaves the squared errors in the buffer and returns their sum |
| Perceptrons.Perceptron.TotalErrorAndGradients | perceptron.h:111-204 | fails exactly when the forward pass does; otherwise returns the forward rows, the squared raw and stale partial errors with their sum, and the gradient tensor `Gradients` specifies |
| Perceptrons.WriteRawErrors | perceptron.h:125-129 | the raw errors go into the first output-width entries and the rest of the buffer is unchanged |
| Perceptrons.ReversePass | perceptron.h:121-195 | the output-layer loop and the descending hidden-layer loop produce exactly the specified gradient tensor |
| Perceptrons.OutputStep | perceptron.h:131-155 | the output layer's deltas go into the delta buffer and its entry of the tensor is the specified one |
| Perceptrons.HiddenLayers | perceptron.h:157-195 | the descending loop with swapped delta buffers completes every hidden layer's specified entry, keeping the output layer's |
| Perceptrons.HiddenStep | perceptron.h:159-194 | hidden layer l gets its specified entry and deltas from layer l + 1's deltas in the successor buffer |
| Perceptrons.OutputLayerPass | perceptron.h:136-155 | the output neuron loop writes the output deltas and each neuron's gradient vector; delta-buffer entries past the layer width are unchanged |
| Perceptrons.HiddenLayerPass | perceptron.h:166-194 | the hidden neuron loop writes the hidden deltas and each neuron's gradient vector; delta-buffer entries past the layer width are unchanged |
| Perceptrons.BackpropagatedSum | perceptron.h:177-181 | the inner loop sums `succDelta_k * w_{k,j}` over the next layer, reading only the first next-layer-width successor deltas |
| Perceptrons.WriteNeuronGradient | perceptron.h:138-154 | one neuron's write (resize, entry 0, entries `1 + j`) produces exactly `NeuronGradient` |
| Perceptrons.SquareAndSum | perceptron.h:198-203 | every buffer entry, stale ones included, is squared in place and the total is their sum |
| Common.Resize | perceptron.h:140 | `resize(n, fill)` has length n, keeps the first min(n, old length) entries and fills the rest |

## Left out

- `main.cpp` is not part of this model. It is a printing demo harness.
- `differential.h` is not part of this model. It is a floating-point finite-difference helper.
- `fout` (neuron.h:24) is dead code: its only call is commented out.
- Floating-point rounding, and the overflow and underflow of `exp`, are not modelled. Values are exact reals.
- The concrete value of `exp` is not modelled. Only its positivity is used.
- The copy and move constructors of `neuron` and `perceptron_neuron_data` are both the datatype constructor. Ownership transfer is not modelled.
- `perceptron_neuron_data`'s default argument `theta = 0` is not modelled. The datatype always takes both fields.
- Caller buffers are values, so aliasing between the input and output vectors is not modelled.
- `size_t` and `int64_t` counters are unbounded integers, so overflow of the loop counters is not modelled.
- Perceptrons.Perceptron.Process: when a neuron throws, the model returns only the error. `out` has already been resized (perceptron.h:53, 59) and partly overwritten (perceptron.h:62); it is not returned. The same holds for `Perceptrons.ForwardBuffered` and `Perceptrons.ProcessLayer`.
- Perceptrons.Perceptron.ProcessLayers: when a neuron throws, the model returns only the error. `out` has already been resized to the layer count and its rows resized and partly written (perceptron.h:77-78, 81, 86, 89); it is not returned. The same holds for `Perceptrons.ForwardLayers`.
- Perceptrons.Perceptron.TotalError: when the forward pass throws, the model returns only the error. The partially overwritten `partialError` the exception leaves behind is not returned.
- Perceptrons.Perceptron.TotalErrorAndGradients: when the forward pass throws, the model returns only the error. `errorGradients` has already been resized to the layer count (perceptron.h:119) and `out` is partly written; neither is returned.
- Perceptrons.Perceptron.TotalErrorAndGradients: it requires `expectedOutput` and `partialError` to be at least as wide as the output layer. The source does not check this and reads or writes out of bounds otherwise.
