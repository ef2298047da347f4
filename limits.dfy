/** The compile-time limits of neural_network.h. */
module Limits {
  /** MAX_LAYER_NODES: the largest number of real (non-bias) neurons in one layer. */
  const MaxLayerNodes: nat := 10

  /** MIN_HIDDEN_LAYERS and MAX_HIDDEN_LAYERS: the admissible numbers of hidden layers. */
  const MinHiddenLayers: nat := 1
  const MaxHiddenLayers: nat := 10

  /** Length of a layer's weight_matrix and weight_update buffers. */
  const WeightCapacity: nat := (MaxLayerNodes + 1) * (MaxLayerNodes + 1)

  /** A weight matrix of (n+1) rows (the bias row included) and m columns fits its buffer. */
  lemma WeightsFit(n: nat, m: nat)
    requires n <= MaxLayerNodes && m <= MaxLayerNodes
    ensures n * m <= (n + 1) * m <= WeightCapacity && n + 1 <= WeightCapacity
  {
  }
}
