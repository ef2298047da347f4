/**
 * neural_layer_t and the layer functions of neural_network.c. A layer owns six
 * fixed-size buffers, allocated once, and points to its neighbours, its activation
 * pair and the network's learning rate. Each method is proved against the LayerSpec
 * function that says what it does to the layer's value.
 */
module NeuralLayer {
  import opened Limits
  import Helper
  import Activation
  import opened LayerSpec

  /** The double that a network owns and that every one of its layers points to. */
  class Rate {
    var value: real

    constructor (value: real)
      ensures this.value == value
    {
      this.value := value;
    }
  }

  /**
   * The loop shared by set_input, set_delta and set_derivative: the first `count`
   * entries of `source` are copied into `buffer`, one by one.
   */
  method CopyPrefix(buffer: array<real>, source: seq<real>, count: nat)
    requires count <= buffer.Length && count <= |source|
    modifies buffer
    ensures buffer[..] == Overwritten(old(buffer[..]), source, count)
  {
    var i := 0;
    while i < count
      invariant i <= count
      invariant forall t :: 0 <= t < i ==> buffer[t] == source[t]
      invariant forall t :: i <= t < buffer.Length ==> buffer[t] == old(buffer[t])
    {
      buffer[i] := source[i];
      i := i + 1;
    }
    assert buffer[..] == Overwritten(old(buffer[..]), source, count);
  }

  class Layer {
    const input: array<real>
    const activation: array<real>
    const derivative: array<real>
    const weightMatrix: array<real>
    const weightUpdate: array<real>
    const delta: array<real>
    var previous: Layer?
    var next: Layer?
    var activate: Activation.Pointer
    var derivate: Activation.Pointer
    var learningRate: Rate?
    var numNodes: nat

    /** The six buffers of the layer. */
    ghost function Buffers(): set<array<real>>
    {
      {input, activation, derivative, weightMatrix, weightUpdate, delta}
    }

    /** The buffer sizes of neural_layer_t, six distinct buffers and at most MAX_LAYER_NODES neurons. */
    ghost predicate Valid()
      reads this
    {
      && numNodes <= MaxLayerNodes
      && (input.Length, activation.Length, derivative.Length, weightMatrix.Length, weightUpdate.Length, delta.Length)
         == (MaxLayerNodes, MaxLayerNodes + 1, MaxLayerNodes + 1, WeightCapacity, WeightCapacity, MaxLayerNodes)
      && input !in {activation, derivative, weightMatrix, weightUpdate, delta}
      && activation !in {derivative, weightMatrix, weightUpdate, delta}
      && derivative !in {weightMatrix, weightUpdate, delta}
      && weightMatrix !in {weightUpdate, delta}
      && weightUpdate != delta
    }

    /** Two different layers that share no buffer. */
    ghost predicate Separate(other: Layer)
    {
      this != other && Buffers() !! other.Buffers()
    }

    /** The content of the layer: its node count, activation pair and buffers. */
    ghost function Value(): (v: LayerValue)
      reads this, Buffers()
      ensures Valid() ==> Shaped(v)
    {
      LayerValue(numNodes, activate, derivate, input[..], activation[..], derivative[..], weightMatrix[..],
                 weightUpdate[..], delta[..])
    }

    /** A layer whose fields and buffers are all unchanged has the same value. */
    twostate lemma Untouched()
      requires unchanged(this) && unchanged(input, activation, derivative, weightMatrix, weightUpdate, delta)
      ensures Value() == old(Value())
    {
    }

    /** How many weight entries initialize_weight_matrix and set_weight_matrix write. */
    function WeightCount(): nat
      reads this, next
      requires Valid() && (next != null ==> next.numNodes <= MaxLayerNodes)
    {
      WeightEntries(numNodes, if next != null then next.numNodes else 0, next != null)
    }

    /** The storage of one layer inside a network: fresh buffers, no neurons and no neighbours yet. */
    constructor ()
      ensures Valid() && fresh(Buffers())
      ensures numNodes == 0 && previous == null && next == null && learningRate == null
    {
      input := new real[MaxLayerNodes];
      activation := new real[MaxLayerNodes + 1];
      derivative := new real[MaxLayerNodes + 1];
      weightMatrix := new real[WeightCapacity];
      weightUpdate := new real[WeightCapacity];
      delta := new real[MaxLayerNodes];
      previous, next := null, null;
      activate, derivate := Activation.ToPassThrough, Activation.ToPassThrough;
      learningRate := null;
      numNodes := 0;
    }

    /**
     * initialize_neural_layer: a node count above MAX_LAYER_NODES is refused and the
     * layer left as it was; otherwise the count and the links are set, and the layer
     * gets the identity as its activation pair when it has no previous layer (the
     * input layer) and the sigmoid with its derivative otherwise.
     */
    method Initialize(nodes: nat, previousLayer: Layer?, nextLayer: Layer?)
      requires Valid()
      modifies this
      ensures Valid()
      ensures nodes > MaxLayerNodes ==> unchanged(this)
      ensures nodes <= MaxLayerNodes ==>
        && numNodes == nodes && previous == previousLayer && next == nextLayer
        && activate == (if previousLayer == null then Activation.ToPassThrough else Activation.ToSigmoid)
        && derivate == (if previousLayer == null then Activation.ToPassThrough else Activation.ToSigmoidDerivative)
        && learningRate == old(learningRate)
    {
      if nodes > MaxLayerNodes {
        return;
      }
      numNodes := nodes;
      previous := previousLayer;
      next := nextLayer;
      if previousLayer == null {
        activate := Activation.ToPassThrough;
        derivate := Activation.ToPassThrough;
      } else {
        activate := Activation.ToSigmoid;
        derivate := Activation.ToSigmoidDerivative;
      }
    }

    /**
     * initialize_weight_matrix: the weights the layer owns, row by row, receive
     * successive draws of rand()/RAND_MAX, which `draws` lists in order; the rest of
     * the buffer keeps its content.
     */
    method InitializeWeightMatrix(draws: seq<real>)
      requires Valid() && (next != null ==> next.numNodes <= MaxLayerNodes)
      requires WeightCount() <= |draws|
      requires forall t :: 0 <= t < |draws| ==> 0.0 <= draws[t] <= 1.0
      modifies weightMatrix
      ensures weightMatrix[..] == Overwritten(old(weightMatrix[..]), draws, WeightCount())
      ensures forall t :: 0 <= t < WeightCount() ==> weightMatrix[t] == draws[t] && 0.0 <= weightMatrix[t] <= 1.0
    {
      var i := 0;
      var drawn := 0;
      while i < numNodes + 1
        invariant i <= numNodes + 1
        invariant drawn == (if next != null then i * next.numNodes else i) && drawn <= WeightCount()
        invariant forall t :: 0 <= t < drawn ==> weightMatrix[t] == draws[t]
        invariant forall t :: drawn <= t < weightMatrix.Length ==> weightMatrix[t] == old(weightMatrix[t])
      {
        if next != null {
          var m := next.numNodes;
          Helper.RowFits(i, numNodes + 1, m);
          Helper.NextRow(i, m);
          var j := 0;
          while j < m
            invariant j <= m && drawn == j + i * m
            invariant forall t :: 0 <= t < drawn ==> weightMatrix[t] == draws[t]
            invariant forall t :: drawn <= t < weightMatrix.Length ==> weightMatrix[t] == old(weightMatrix[t])
          {
            var temp := draws[drawn];
            drawn := drawn + 1;
            weightMatrix[j + i * m] := temp;
            j := j + 1;
          }
        } else {
          var temp := draws[drawn];
          drawn := drawn + 1;
          weightMatrix[i] := temp;
        }
        i := i + 1;
      }
      assert weightMatrix[..] == Overwritten(old(weightMatrix[..]), draws, WeightCount());
    }

    /** set_weight_matrix: the weights the layer owns are copied from `matrix`, at the same positions. */
    method SetWeightMatrix(matrix: seq<real>)
      requires Valid() && (next != null ==> next.numNodes <= MaxLayerNodes)
      requires WeightCount() <= |matrix|
      modifies weightMatrix
      ensures weightMatrix[..] == Overwritten(old(weightMatrix[..]), matrix, WeightCount())
    {
      var i := 0;
      ghost var written := 0;
      while i < numNodes + 1
        invariant i <= numNodes + 1
        invariant written == (if next != null then i * next.numNodes else i) && written <= WeightCount()
        invariant forall t :: 0 <= t < written ==> weightMatrix[t] == matrix[t]
        invariant forall t :: written <= t < weightMatrix.Length ==> weightMatrix[t] == old(weightMatrix[t])
      {
        if next != null {
          var m := next.numNodes;
          Helper.RowFits(i, numNodes + 1, m);
          Helper.NextRow(i, m);
          var j := 0;
          while j < m
            invariant j <= m && written == j + i * m
            invariant forall t :: 0 <= t < written ==> weightMatrix[t] == matrix[t]
            invariant forall t :: written <= t < weightMatrix.Length ==> weightMatrix[t] == old(weightMatrix[t])
          {
            weightMatrix[j + i * m] := matrix[j + i * m];
            written := written + 1;
            j := j + 1;
          }
        } else {
          weightMatrix[i] := matrix[i];
          written := written + 1;
        }
        i := i + 1;
      }
      assert weightMatrix[..] == Overwritten(old(weightMatrix[..]), matrix, WeightCount());
    }

    /** set_input: the layer's first numNodes inputs are copied from `x`. */
    method SetInput(x: seq<real>)
      requires Valid() && numNodes <= |x|
      modifies input
      ensures Value() == old(Value()).(input := Overwritten(old(input[..]), x, numNodes))
    {
      CopyPrefix(input, x, numNodes);
    }

    /** set_delta: the layer's first numNodes deltas are copied from `d`. */
    method SetDelta(d: seq<real>)
      requires Valid() && numNodes <= |d|
      modifies delta
      ensures Value() == old(Value()).(delta := Overwritten(old(delta[..]), d, numNodes))
    {
      CopyPrefix(delta, d, numNodes);
    }

    /** set_derivative: the layer's first numNodes derivatives are copied from `d`. */
    method SetDerivative(d: seq<real>)
      requires Valid() && numNodes <= |d|
      modifies derivative
      ensures Value() == old(Value()).(derivative := Overwritten(old(derivative[..]), d, numNodes))
    {
      CopyPrefix(derivative, d, numNodes);
    }

    /**
     * The first half of feed_layer_forward: each neuron's activation and derivative
     * from its input, and the bias activation set to 1.
     */
    method Activate(exp: real -> real)
      requires Activation.IsExponential(exp)
      requires Valid()
      modifies activation, derivative
      ensures Value() == Forwarded(old(Value()), exp)
    {
      var i := 0;
      while i < numNodes
        invariant i <= numNodes
        invariant forall t :: 0 <= t < i ==> activation[t] == Activation.Call(activate, exp, input[t]) && derivative[t] == Activation.Call(derivate, exp, input[t])
        invariant forall t :: i <= t < activation.Length ==> activation[t] == old(activation[t])
        invariant forall t :: i <= t < derivative.Length ==> derivative[t] == old(derivative[t])
      {
        activation[i] := Activation.Call(activate, exp, input[i]);
        derivative[i] := Activation.Call(derivate, exp, input[i]);
        i := i + 1;
      }
      activation[numNodes] := 1.0;
      assert activation[..] == Forwarded(old(Value()), exp).activation;
      assert derivative[..] == Forwarded(old(Value()), exp).derivative;
    }

    /**
     * feed_layer_forward: the layer's activations and derivatives from its inputs and,
     * when there is a next layer, the next layer's input set to the activations (bias
     * included) times the weight matrix.
     */
    method FeedLayerForward(exp: real -> real)
      requires Activation.IsExponential(exp)
      requires Valid()
      requires next != null ==> next.Valid() && Separate(next)
      modifies activation, derivative, if next != null then {next.input} else {}
      ensures Value() == Forwarded(old(Value()), exp)
      ensures next != null ==> next.Value() == Fed(Value(), old(next.Value()))
    {
      Activate(exp);
      if next != null {
        WeightsFit(numNodes, next.numNodes);
        Helper.VectorMatrixMultiply(activation, numNodes + 1, weightMatrix, numNodes + 1, next.numNodes, next.input);
      }
    }

    /** The last loop of feed_layer_backwards, run on the previous layer: each delta times the neuron's derivative. */
    method MakeDeltas()
      requires Valid()
      modifies delta
      ensures delta[..] == Scaled(old(delta[..]), derivative[..], numNodes)
    {
      ghost var expected := Scaled(delta[..], derivative[..], numNodes);
      var i := 0;
      while i < numNodes
        invariant i <= numNodes
        invariant forall t :: 0 <= t < i ==> delta[t] == expected[t]
        invariant forall t :: i <= t < delta.Length ==> delta[t] == old(delta[t])
      {
        delta[i] := delta[i] * derivative[i];
        i := i + 1;
      }
      assert forall t :: 0 <= t < delta.Length ==> delta[t] == expected[t];
    }

    /**
     * feed_layer_backwards: when there is a previous layer, its delta becomes its weight
     * matrix (without the bias row) times this layer's delta, and then each of its
     * deltas is multiplied by the neuron's derivative.
     */
    method FeedLayerBackwards()
      requires Valid()
      requires previous != null ==> previous.Valid() && Separate(previous)
      modifies if previous != null then {previous.delta} else {}
      ensures previous != null ==> previous.Value() == Backpropagated(Value(), old(previous.Value()))
    {
      if previous != null {
        WeightsFit(previous.numNodes, numNodes);
        Helper.MatrixVectorMultiply(delta, numNodes, previous.weightMatrix, previous.numNodes, numNodes,
                                    previous.delta);
        previous.MakeDeltas();
      }
    }

    /**
     * update_weight_matrix: when there is a next layer, weight_update becomes the outer
     * product of the activations (bias included) and the next layer's delta, and the
     * weight matrix gains weight_update scaled by minus the learning rate.
     */
    method UpdateWeightMatrix()
      requires Valid()
      requires next != null ==> next.Valid() && Separate(next) && learningRate != null
      modifies weightUpdate, weightMatrix
      ensures next == null ==> Value() == old(Value())
      ensures next != null ==> Value() == Updated(old(Value()), next.Value(), learningRate.value)
    {
      if next != null {
        WeightsFit(numNodes, next.numNodes);
        Helper.MatrixMatrixMultiply(activation, numNodes + 1, 1, next.delta, 1, next.numNodes, weightUpdate);
        Helper.MatrixUpdate(weightMatrix, numNodes + 1, next.numNodes, weightUpdate, -learningRate.value);
      }
    }
  }
}
