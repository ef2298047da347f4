# neural_network in Dafny

A model of the core of a small C feed-forward neural network. The network is a chain
of `num_hidden_layers + 2` layers: an input layer, the hidden layers and an output
layer. Every layer is a `neural_layer_t` with six buffers of fixed capacity:

- `input` and `delta` hold `MAX_LAYER_NODES` entries;
- `activation` and `derivative` hold `MAX_LAYER_NODES + 1` entries, the extra slot
  being the bias neuron;
- `weight_matrix` and `weight_update` hold `(MAX_LAYER_NODES + 1)^2` entries.

A layer with a next layer stores its `(num_nodes + 1) x next.num_nodes` weight matrix
row-major, at index `j + i*next.num_nodes`. The last row is the bias row, and
`activation[num_nodes]` is the bias neuron's constant 1.

The per-layer steps each write one neighbour's buffer:

- `feed_layer_forward` writes the next layer's `input`;
- `feed_layer_backwards` writes the previous layer's `delta`;
- `update_weight_matrix` writes the layer's own `weight_update` and `weight_matrix`.

The network operations call these steps in a fixed order. The forward pass goes in
increasing layer order. The backward pass goes from the output layer down to layer 1.
The update goes in increasing order. `helper.c` supplies the row-major linear algebra.
Its three multiply wrappers check shapes, then call the reference BLAS (DGEMM or DGEMV
with alpha = 1, beta = 0); `matrix_update` accumulates in place.

The project has seven modules:

- `Limits` (limits.dfy): the constants of `neural_network.h`.
- `Activation` (activation.dfy): `pass_through`, `sigmoid`, `sigmoid_derivative` and
  the function pointer type.
- `Helper` (helper.dfy): the `helper.c` wrappers.
  - Each wrapper is a method on arrays, proved against a function giving the content
    of the result buffer.
  - The BLAS routines are modelled by the product they compute.
  - The unit tests' expected values are lemmas about these functions.
- `LayerSpec` (layer_spec.dfy): the value of one layer (`LayerValue`) and what each
  per-layer step does to it.
- `NetworkSpec` (network_spec.dfy): the network as a sequence of layer values, and
  what `feed_forward`, `back_propagate`, `update_weights` and `iterate_network` do to
  it.
  - Lemmas state the effect of each pass.
  - `FeedForwardClosedForm` gives the forward pass in closed form: the `Signal`
    recurrence, whose correctness depends on the increasing order.
  - `BackPropagateChain` gives the backward pass as a chain in decreasing order.
  - `FeedForwardIdempotent` proves that a second forward pass changes nothing.
- `NeuralLayer` (neural_layer.dfy): `neural_layer_t` as a class.
  - Its buffers are arrays and its links are references.
  - Each layer function is a method with a `modifies` clause naming exactly the
    buffers the C function writes.
- `NeuralNetwork` (neural_network.dfy): `neural_network_parameters_t` as a datatype,
  `create_neural_network_parameters`, and `neural_network_t` as a class.
  - The class holds the sequence of its layers, the shared learning rate, and the
    `input`/`output`/`error` aliases of the first and last layers' buffers.
  - Every network method is proved to change the layer values exactly as the
    matching `NetworkSpec` function says.

## Model

| member | source | states |
|---|---|---|
| Activation.Sigmoid | neural_network.c:13-16 | for any exponential with positive values, the sigmoid lies strictly between 0 and 1 |
| Activation.SigmoidDerivative | neural_network.c:18-21 | sigmoid(x) * (1 - sigmoid(x)) lies in (0, 1/4] |
| Activation.Call | neural_network.c:8-21 | a call through an activation pointer: pass_through returns its argument, the sigmoid lies in (0, 1), its derivative in (0, 1/4] |
| Helper.VectorMatrixMultiply | helper.c:35-55 | result is untouched when matrix_rows != vector_size, and when vector_size is 0 (the BLAS call rejects lda = 0); otherwise its first matrix_columns entries become vector times matrix and the rest keep their values |
| Helper.MatrixVectorMultiply | helper.c:97-131 | result is untouched when matrix_columns != vector_size, and when matrix_columns is 0 (the BLAS call rejects lda = 0); otherwise its first matrix_rows entries become matrix times vector and the rest keep their values |
| Helper.MatrixMatrixMultiply | helper.c:170-191 | result is untouched when matrix1_columns != matrix2_rows, and when matrix1_columns is 0 (the BLAS call rejects lda = 0); otherwise its first rows1*columns2 entries become the row-major product |
| Helper.MatrixUpdate | helper.c:226-241 | every entry below rows*cols gains update_weight times the matching update entry; no entry at rows*cols or beyond changes |
| Helper.MatrixUpdatedAt | helper.c:234-238 | with weight -rate, entry k of the matrix becomes matrix[k] - rate*update[k] |
| Helper.VectorTimesIdentity | helper.c:48-52 | the vector-matrix product with the identity matrix returns the vector (an independent check of the product's index layout) |
| Helper.OuterProduct | helper.c:184-188 | with one inner column, entry j + i*cols of the product is column[i] * row[j] |
| Helper.EmptyInnerDimension | helper.c:48-52 | with an inner dimension of 0 (vector_size, matrix_columns or matrix1_columns), none of the three products writes result |
| Helper.VectorMatrixExample | helper.c:57-95 | [1,2,3,4] times the 4 x 5 matrix 1..20 is [110,120,130,140,150] |
| Helper.MatrixVectorExample | helper.c:134-168 | [[1,-1,2],[0,-3,1]] times [2,1,0] is [1,-3] |
| Helper.MatrixMatrixExample | helper.c:194-223 | the 4 x 1 matrix [1,2,3,4] times the 1 x 3 matrix [5,6,7] is [[5,6,7],[10,12,14],[15,18,21],[20,24,28]] |
| LayerSpec.Overwritten | neural_network.c:111-121 | the first count entries come from the source, the rest of the buffer is unchanged, and the length is kept |
| LayerSpec.WeightEntries | neural_network.c:64-75 | the number of weights a layer owns, (num_nodes+1)*next.num_nodes or num_nodes+1, never exceeds the (MAX_LAYER_NODES+1)^2 buffer |
| LayerSpec.Forwarded | neural_network.c:168-172 | activating a layer keeps every buffer length (ForwardedEffect states the values) |
| LayerSpec.Fed | neural_network.c:175-179 | feeding the next layer keeps its buffer lengths (its input is the vector-matrix product of the activations, bias included, and the weights) |
| LayerSpec.Scaled | neural_network.c:198-200 | scaling the deltas by the derivatives keeps the length |
| LayerSpec.Backpropagated | neural_network.c:189-200 | back-propagating into the previous layer keeps its buffer lengths |
| LayerSpec.Updated | neural_network.c:209-217 | updating a layer keeps its buffer lengths |
| LayerSpec.ForwardedEffect | neural_network.c:168-172 | activating changes only activation and derivative; the bias activation is 1; the entries beyond the neurons keep their values; activating twice equals activating once |
| LayerSpec.BackpropagatedAt | neural_network.c:189-200 | previous.delta[t] = (row t of the previous weights times delta) * previous.derivative[t] for t < previous.num_nodes; when the layer has no neurons, the BLAS call writes nothing and the old previous.delta[t] is scaled |
| LayerSpec.BackpropagatedFrame | neural_network.c:189-200 | back-propagation changes only the previous layer's delta, and only below previous.num_nodes |
| LayerSpec.BiasRowIgnored | neural_network.c:189-195 | any change to the previous layer's weights outside its first previous.num_nodes rows, the bias row included, leaves the new delta unchanged |
| LayerSpec.UpdatedAt | neural_network.c:211-213 | weight_update[j + i*m] = activation[i] * next.delta[j] for i <= num_nodes and j < m |
| LayerSpec.UpdatedDescent | neural_network.c:215-216 | weight_matrix[k] becomes weight_matrix[k] - learning_rate * weight_update[k] for every owned entry k |
| LayerSpec.UpdatedFrame | neural_network.c:209-217 | the update changes only weight_matrix and weight_update, and only their first (num_nodes+1)*next.num_nodes entries |
| NetworkSpec.FeedLayerForward | neural_network.c:163-182 | feeding layer i forward keeps a chain of the same length |
| NetworkSpec.FeedLayerBackwards | neural_network.c:184-204 | feeding layer i backwards keeps a chain of the same length |
| NetworkSpec.UpdateWeightMatrix | neural_network.c:206-221 | updating layer i keeps a chain of the same length |
| NetworkSpec.SetInput | neural_network.c:334-336 | copying the input keeps a chain of the same length |
| NetworkSpec.ForwardUpTo | neural_network.c:339-341 | any prefix of the forward loop keeps a chain of the same length |
| NetworkSpec.FeedForward | neural_network.c:328-344 | feed_forward keeps every layer's node count and activation pair |
| NetworkSpec.ForwardUpToTopology | neural_network.c:339-341 | no round of the forward loop changes a node count or an activation pair |
| NetworkSpec.SetError | neural_network.c:353-356 | setting the output error keeps a chain of the same length |
| NetworkSpec.BackwardFrom | neural_network.c:359-361 | any suffix of the backward loop keeps a chain of the same length |
| NetworkSpec.BackwardFromTopology | neural_network.c:359-361 | no round of the backward loop changes a node count or an activation pair |
| NetworkSpec.BackPropagate | neural_network.c:346-364 | back_propagate keeps every layer's node count and activation pair |
| NetworkSpec.UpdateUpTo | neural_network.c:369-371 | any prefix of the update loop keeps a chain of the same length |
| NetworkSpec.UpdateWeights | neural_network.c:366-373 | update_weights keeps a chain of the same length |
| NetworkSpec.Iterate | neural_network.c:375-443 | one training step (feed_forward, back_propagate, update_weights) keeps a chain of the same length |
| NetworkSpec.Signal | neural_network.c:175-179 | the forward recurrence: layer 0 receives the network input, and layer k+1 receives layer k's activations times its weights; it has one entry per neuron |
| NetworkSpec.Activations | neural_network.c:168-172 | the recurrence's activations have one entry per neuron plus the bias |
| NetworkSpec.Derivatives | neural_network.c:168-171 | the recurrence's derivatives have one entry per neuron |
| NetworkSpec.ForwardedClosed | neural_network.c:168-172 | activating a layer whose input holds its signal gives its closed form |
| NetworkSpec.FedClosed | neural_network.c:175-179 | feeding a layer in closed form forward puts the next layer's signal into that layer's input |
| NetworkSpec.SetInputPending | neural_network.c:334-336 | after the input copy, the input layer holds its signal |
| NetworkSpec.ForwardUpToUntouched | neural_network.c:339-341 | after p rounds of the forward loop, every layer after layer p is untouched |
| NetworkSpec.ForwardUpToPending | neural_network.c:339-341 | after p rounds, layer p's input holds its signal: the increasing order feeds each layer before it is activated |
| NetworkSpec.ForwardUpToClosed | neural_network.c:339-341 | after p rounds, every layer below p is in closed form |
| NetworkSpec.ForwardRoundCloses | neural_network.c:340 | the round on a layer whose input holds its signal closes that layer |
| NetworkSpec.ForwardRoundFeeds | neural_network.c:340 | the round on layer p-1 puts layer p's signal into its input |
| NetworkSpec.ForwardRoundKeeps | neural_network.c:340 | round p changes no layer other than p-1 and p |
| NetworkSpec.FeedLayerForwardAt | neural_network.c:163-182 | feed_layer_forward on layer i changes layer i (activated) and layer i+1 (fed) only |
| NetworkSpec.FeedLayerForwardFrom | neural_network.c:163-182 | any sequence that differs from the network exactly as feed_layer_forward prescribes is its result |
| NetworkSpec.FeedForwardClosedForm | neural_network.c:328-344 | after feed_forward, every layer's input, activations (bias included) and derivatives are the forward recurrence's, and nothing else changes |
| NetworkSpec.FeedForwardAt | neural_network.c:328-344 | after feed_forward, layer k keeps its node count, weights and deltas and holds the recurrence's activations and derivatives |
| NetworkSpec.SignalDependsOnWeights | neural_network.c:175-179 | the recurrence depends on the layers only through node counts, activation pairs and weights |
| NetworkSpec.ClosedStable | neural_network.c:328-344 | a second forward pass on the same input leaves every layer's closed form unchanged |
| NetworkSpec.FeedForwardIdempotent | neural_network.c:328-344 | feed_forward twice with the same input equals feed_forward once |
| NetworkSpec.InputLayerPassesThrough | neural_network.c:168-172 | after feed_forward, a pass-through input layer's activations are the network input followed by the bias 1 |
| NetworkSpec.SigmoidLayerRange | neural_network.c:168-172 | after feed_forward, every sigmoid neuron's activation lies in (0, 1) and its derivative in (0, 1/4] |
| NetworkSpec.FeedLayerBackwardsAt | neural_network.c:184-204 | feed_layer_backwards on layer i changes layer i-1 only |
| NetworkSpec.FeedLayerBackwardsFrom | neural_network.c:184-204 | any sequence that differs from the network only in layer i-1, back-propagated from layer i, is feed_layer_backwards' result |
| NetworkSpec.BackwardFromAt | neural_network.c:359-361 | after the backward loop has handled layers down to p, the output layer and the layers below p-1 are untouched, and every layer from p-1 up is back-propagated from the final next layer |
| NetworkSpec.BackPropagateFrame | neural_network.c:346-364 | back_propagate changes only the deltas of real neurons |
| NetworkSpec.BackPropagateAt | neural_network.c:359-361 | every layer below the output is back-propagated from the next layer's final delta |
| NetworkSpec.BackPropagateOutput | neural_network.c:353-356 | the output layer's delta becomes activation minus decision for every output neuron |
| NetworkSpec.BackPropagateChain | neural_network.c:346-364 | back_propagate: the output error, the backward chain in decreasing order, and no change beyond the real neurons' deltas |
| NetworkSpec.UpdateWeightMatrixAt | neural_network.c:206-221 | update_weight_matrix on layer i changes layer i only, and not at all for the output layer |
| NetworkSpec.UpdateWeightMatrixFrom | neural_network.c:206-221 | any sequence that differs from the network exactly as update_weight_matrix prescribes is its result |
| NetworkSpec.UpdateUpToAt | neural_network.c:369-371 | after p rounds of the update loop, layers below p are updated against their unchanged next layer and the rest are untouched |
| NetworkSpec.UpdateWeightsEffect | neural_network.c:366-373 | update_weights updates every layer with a next layer against that layer's delta and leaves the output layer as it is |
| NetworkSpec.IterateLayer | neural_network.c:375-443 | after one training step, layer k is its back-propagated value (original weights, this input's activations) updated against layer k+1's back-propagated delta |
| NetworkSpec.IterateKeepsOutputWeights | neural_network.c:375-443 | a training step never changes the output layer's weights |
| NetworkSpec.IterateOutputError | neural_network.c:381-399 | the output error of a training step is the recurrence's output activation minus the true decision |
| NeuralLayer.CopyPrefix | neural_network.c:116-118 | the buffer's first count entries are copied from the source and the rest keep their values |
| NeuralLayer.Layer.constructor | neural_network.h:47-60 | a layer with six fresh buffers of the struct's sizes, no neurons and no links |
| NeuralLayer.Layer.Initialize | neural_network.c:27-55 | more than MAX_LAYER_NODES nodes leaves the layer unchanged; otherwise it sets the count and links, and the identity pair iff there is no previous layer, the sigmoid pair otherwise |
| NeuralLayer.Layer.InitializeWeightMatrix | neural_network.c:57-78 | the owned weights receive successive draws in row-major order, each in [0, 1]; the rest of the buffer is unchanged |
| NeuralLayer.Layer.SetWeightMatrix | neural_network.c:80-98 | the owned weights are copied from the matrix at the same positions; the rest of the buffer is unchanged |
| NeuralLayer.Layer.SetInput | neural_network.c:111-121 | the first num_nodes inputs are copied; nothing else in the layer changes |
| NeuralLayer.Layer.SetDelta | neural_network.c:129-138 | the first num_nodes deltas are copied; nothing else in the layer changes |
| NeuralLayer.Layer.SetDerivative | neural_network.c:146-155 | the first num_nodes derivatives are copied; nothing else in the layer changes |
| NeuralLayer.Layer.Activate | neural_network.c:168-172 | the layer's new value is Forwarded of the old one |
| NeuralLayer.Layer.FeedLayerForward | neural_network.c:163-182 | the layer becomes Forwarded, the next layer, if any, becomes Fed from it, and only activation, derivative and next.input are written |
| NeuralLayer.Layer.MakeDeltas | neural_network.c:198-200 | delta[i] *= derivative[i] for i < num_nodes |
| NeuralLayer.Layer.FeedLayerBackwards | neural_network.c:184-204 | the previous layer, if any, becomes Backpropagated, and only its delta is written |
| NeuralLayer.Layer.UpdateWeightMatrix | neural_network.c:206-221 | with a next layer, the layer becomes Updated at the shared learning rate; the output layer is unchanged; only weight_update and weight_matrix are written |
| NeuralNetwork.CreateNeuralNetworkParameters | neural_network.c:227-266 | returns parameters iff h is in [MIN_HIDDEN_LAYERS, MAX_HIDDEN_LAYERS], num_nodes is present, and it has h+2 counts, each in [1, MAX_LAYER_NODES]; these parameters are exactly the h+2 counts, h and the rate; the caller's array may be shorter than h+2 when it has an invalid count, at which the scan stops |
| NeuralNetwork.Difference | neural_network.c:353-356 | error[i] = activation[i] - decision[i] for the output neurons; the rest of the buffer is unchanged |
| NeuralNetwork.NewLayers | neural_network.h:71-78 | h+2 fresh, valid layers, each owning its own six buffers |
| NeuralNetwork.Network.constructor | neural_network.c:269-318 | a valid network whose layers are linked and initialised from the parameters, share the learning rate, and hold their draws as weights |
| NeuralNetwork.Network.Link | neural_network.c:293-310 | every layer gets its node count, previous and next layers, activation pair and the shared learning rate |
| NeuralNetwork.Network.LinkLayer | neural_network.c:295-309 | layer k is linked to layers k-1 and k+1, none at either end, and points to the network's learning rate |
| NeuralNetwork.Network.LinkedValid | neural_network.c:293-310 | linking every layer as create_neural_network does gives a valid chain |
| NeuralNetwork.WithDrawsAt | neural_network.c:312-315 | after the draws of layers below count, such a layer differs only in its weight matrix, whose first DrawsNeeded entries are its draws and whose other entries are unchanged; every other layer is unchanged |
| NeuralNetwork.WithDrawsStep | neural_network.c:312-315 | drawing layer count's weights extends the draws of the layers below it by that layer |
| NeuralNetwork.Network.DrawWeights | neural_network.c:312-315 | the layer values become WithDraws of the old ones: every layer's owned weights are its draws, and no other buffer entry, link or the learning rate changes |
| NeuralNetwork.Network.AllDrawn | neural_network.c:312-315 | once every layer is drawn, weight t of layer k is draws[k][t] for every t below DrawsNeeded |
| NeuralNetwork.Network.DrawStep | neural_network.c:314 | one round of the draw loop overwrites layer k's owned weights with its draws, and no other layer value changes |
| NeuralNetwork.Network.DrawLayer | neural_network.c:314 | initialize_weight_matrix on layer k: its value differs only in the weight matrix, whose first DrawsNeeded entries become its draws and whose other entries keep their values |
| NeuralNetwork.Network.FeedLayer | neural_network.c:340 | feed_layer_forward on layer i of the network activates layer i and feeds layer i+1 |
| NeuralNetwork.Network.ForwardStep | neural_network.c:339-341 | one round of the forward loop changes the layer values as NetworkSpec.FeedLayerForward |
| NeuralNetwork.Network.FeedLayers | neural_network.c:339-341 | the forward loop changes the layer values as NetworkSpec.ForwardUpTo over every layer |
| NeuralNetwork.Network.CopyInput | neural_network.c:334-336 | the input copy changes the layer values as NetworkSpec.SetInput |
| NeuralNetwork.Network.FeedForward | neural_network.c:328-344 | feed_forward changes the layer values as NetworkSpec.FeedForward, whose closed form and idempotence are proved |
| NeuralNetwork.Network.OutputError | neural_network.c:353-356 | the error loop changes the layer values as NetworkSpec.SetError |
| NeuralNetwork.Network.BackwardStep | neural_network.c:359-361 | one round of the backward loop changes the layer values as NetworkSpec.FeedLayerBackwards |
| NeuralNetwork.Network.FeedBackwards | neural_network.c:359-361 | the backward loop, from the output layer down to layer 1, changes the layer values as NetworkSpec.BackwardFrom |
| NeuralNetwork.Network.BackPropagate | neural_network.c:346-364 | back_propagate changes the layer values as NetworkSpec.BackPropagate |
| NeuralNetwork.Network.UpdateStep | neural_network.c:369-371 | one round of the update loop changes the layer values as NetworkSpec.UpdateWeightMatrix |
| NeuralNetwork.Network.UpdateWeights | neural_network.c:366-373 | update_weights changes the layer values as NetworkSpec.UpdateWeights |
| NeuralNetwork.Network.Iterate | neural_network.c:375-443 | iterate_network keeps the network valid and changes the layer values as NetworkSpec.Iterate |

## Left out

- `exp` from the C maths library is a parameter of every operation that calls the sigmoid. Only one fact about it is used: its values are positive. The sigmoid is then modelled exactly as 1/(1+exp(-x)).
- `double` arithmetic is modelled by exact real arithmetic. Rounding, overflow, NaN and infinities are not modelled.
- `rand()` is a parameter. The draws for each layer are listed in order, and each is assumed to lie in [0, 1], the range of rand()/RAND_MAX, which includes 1.
- `srand(time(NULL))` is left out; it only seeds the random generator.
- The three `cblas_*` calls are modelled by the product they compute with alpha = 1 and beta = 0. The BLAS internals and their summation order are not modelled.
- Helper.VectorMatrixMultiply, Helper.MatrixVectorMultiply and Helper.MatrixMatrixMultiply: with an inner dimension of 0, the BLAS call gets a leading dimension of 0, which it rejects through its error handler `xerbla`. The model leaves `result` untouched, as a BLAS whose handler reports and returns does. A handler that ends the program is not modelled. No network operation reaches this case, because every layer has at least one neuron.
- The `print_*` functions, the `#if DEBUG` dumps in `iterate_network`, the `test_*` routines of `neural_network.c` and `main.c` are left out. They are console I/O, file parsing and a training driver. The expected values of the `helper.c` unit tests are kept as lemmas.
- The `malloc` failure paths of `create_neural_network_parameters` and `create_neural_network` are left out. Allocation always succeeds in Dafny.
- Missing `num_nodes` (NULL) is modelled as an `Option`.
- CreateNeuralNetworkParameters requires that the C loop never reads past the end of the caller's `num_nodes` array: the array holds h+2 entries, or it holds an invalid entry where the scan stops. The C code would otherwise read past its end.
- The messages written to stderr on the refusal paths are left out, as console I/O. These paths are helper.c:44, 107 and 180 and neural_network.c:35, 235, 239 and 245. Each path's result is modelled.
- The function pointers `activate` and `derivate` are the enum `Activation.Pointer`, which names their three possible targets.
- `neural_network_t` holds an array of `MAX_HIDDEN_LAYERS + 2` layers. The model keeps only the `h + 2` layers the network uses; the rest of the C array is never initialised or read.
- NeuralNetwork.Network.constructor: requires parameters as CreateNeuralNetworkParameters accepts them. `create_neural_network` does not check them again; with a node count above MAX_LAYER_NODES, `initialize_neural_layer` would refuse and leave that layer uninitialised.
- The layer methods of NeuralLayer require their neighbours to be valid layers with separate buffers. The C code assumes the same: the links are set by `create_neural_network`.
- The network's `input`, `output` and `error` pointers are fields equal to the first and last layers' buffers. No operation writes through `input` other than the input copy.
- NetworkSpec.FeedLayerForward: its contract states only that the chain and its length are kept; its effect is FeedLayerForwardAt.
- NetworkSpec.FeedLayerBackwards: its contract states only that the chain and its length are kept; its effect is FeedLayerBackwardsAt.
- NetworkSpec.UpdateWeightMatrix: its contract states only that the chain and its length are kept; its effect is UpdateWeightMatrixAt.
- NetworkSpec.SetInput: its contract states only that the chain and its length are kept; its effect on the input layer is SetInputPending.
- NetworkSpec.ForwardUpTo: its contract states only that the chain and its length are kept; its effect is ForwardUpToClosed, ForwardUpToPending and ForwardUpToUntouched, and ForwardUpToTopology keeps node counts and activation pairs.
- NetworkSpec.SetError: its contract states only that the chain and its length are kept; its effect is BackPropagateOutput.
- NetworkSpec.BackwardFrom: its contract states only that the chain and its length are kept; its effect is BackwardFromAt, and BackwardFromTopology keeps node counts and activation pairs.
- NetworkSpec.UpdateUpTo: its contract states only that the chain and its length are kept; its effect is UpdateUpToAt.
- NetworkSpec.UpdateWeights: its contract states only that the chain and its length are kept; its effect is UpdateWeightsEffect.
- NetworkSpec.Iterate: its contract states only that the chain and its length are kept; its effect is IterateLayer, IterateKeepsOutputWeights and IterateOutputError.
- LayerSpec.Forwarded: its contract states only that the buffer lengths are kept; its effect is ForwardedEffect and ForwardedClosed.
- LayerSpec.Fed: its contract states only that the buffer lengths are kept; its effect is FedClosed.
- LayerSpec.Backpropagated: its contract states only that the buffer lengths are kept; its effect is BackpropagatedAt, BackpropagatedFrame and BiasRowIgnored.
- LayerSpec.Updated: its contract states only that the buffer lengths are kept; its effect is UpdatedAt, UpdatedDescent and UpdatedFrame.
- LayerSpec.Scaled: its contract states only that the length is kept; its entries are stated through BackpropagatedAt.
- Convergence or any decrease of the error over training is not modelled.
