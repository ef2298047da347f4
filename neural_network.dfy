/**
 * neural_network_parameters_t, neural_network_t and the network functions of
 * neural_network.c. A network owns h+2 layers linked in a chain (h hidden layers
 * between the input and the output layer) and the learning rate every layer points
 * to. Each operation is proved against the NetworkSpec function that says what it
 * does to the sequence of layer values.
 */
module NeuralNetwork {
  import opened Limits
  import Activation
  import opened LayerSpec
  import opened NetworkSpec
  import opened NeuralLayer

  datatype Option<T> = None | Some(value: T)

  /** neural_network_parameters_t: the node count of every layer, the number of hidden layers and the learning rate. */
  datatype Parameters = Parameters(numNodes: seq<nat>, numHiddenLayers: nat, learningRate: real)

  /** Parameters that create_neural_network_parameters accepts. */
  predicate ValidParameters(p: Parameters)
  {
    && MinHiddenLayers <= p.numHiddenLayers <= MaxHiddenLayers
    && |p.numNodes| == p.numHiddenLayers + 2
    && forall i :: 0 <= i < |p.numNodes| ==> 0 < p.numNodes[i] <= MaxLayerNodes
  }

  /**
   * create_neural_network_parameters: refuses (NULL) a hidden layer count outside
   * [MIN_HIDDEN_LAYERS, MAX_HIDDEN_LAYERS], a missing node count array, and a layer
   * with no node or more than MAX_LAYER_NODES nodes; otherwise returns the h+2 node
   * counts, h and the learning rate. The node counts are read in order and the first
   * invalid one ends the scan, so the caller's array needs h+2 entries only when it
   * has no invalid entry before that.
   */
  method CreateNeuralNetworkParameters(numHiddenLayers: nat, numNodes: Option<seq<nat>>, learningRate: real)
    returns (r: Option<Parameters>)
    requires numNodes.Some? && MinHiddenLayers <= numHiddenLayers <= MaxHiddenLayers ==>
      || numHiddenLayers + 2 <= |numNodes.value|
      || exists j :: 0 <= j < |numNodes.value| && !(0 < numNodes.value[j] <= MaxLayerNodes)
    ensures r.Some? <==>
      && MinHiddenLayers <= numHiddenLayers <= MaxHiddenLayers
      && numNodes.Some?
      && forall i :: 0 <= i < numHiddenLayers + 2 ==> i < |numNodes.value| && 0 < numNodes.value[i] <= MaxLayerNodes
    ensures r.Some? ==>
      && ValidParameters(r.value)
      && r.value == Parameters(numNodes.value[..numHiddenLayers + 2], numHiddenLayers, learningRate)
  {
    if numHiddenLayers > MaxHiddenLayers || numHiddenLayers < MinHiddenLayers {
      return None;
    }
    if numNodes.None? {
      return None;
    }
    var nodes := numNodes.value;
    var i := 0;
    while i < numHiddenLayers + 2
      invariant i <= numHiddenLayers + 2
      invariant forall t :: 0 <= t < i ==> t < |nodes| && 0 < nodes[t] <= MaxLayerNodes
    {
      if i == |nodes| {
        // every entry is valid, so the requires gives h+2 of them
        assert false;
      }
      if nodes[i] == 0 || nodes[i] > MaxLayerNodes {
        return None;
      }
      i := i + 1;
    }
    var copied: seq<nat> := [];
    i := 0;
    while i < numHiddenLayers + 2
      invariant i <= numHiddenLayers + 2
      invariant copied == nodes[..i]
    {
      copied := copied + [nodes[i]];
      i := i + 1;
    }
    r := Some(Parameters(copied, numHiddenLayers, learningRate));
  }

  /** How many draws of rand() initialize_weight_matrix makes for layer k of a network with these parameters. */
  function DrawsNeeded(p: Parameters, k: nat): nat
    requires ValidParameters(p) && k < |p.numNodes|
  {
    var last := k + 1 == |p.numNodes|;
    WeightEntries(p.numNodes[k], if last then 0 else p.numNodes[k + 1], !last)
  }

  /** The loop of back_propagate that sets the error: dst[t] becomes a[t] - b[t] for the first count entries. */
  method Difference(dst: array<real>, a: array<real>, b: seq<real>, count: nat)
    requires dst != a && count <= dst.Length && count <= a.Length && count <= |b|
    modifies dst
    ensures forall t :: 0 <= t < count ==> dst[t] == a[t] - b[t]
    ensures forall t :: count <= t < dst.Length ==> dst[t] == old(dst[t])
  {
    var i := 0;
    while i < count
      invariant i <= count
      invariant forall t :: 0 <= t < i ==> dst[t] == a[t] - b[t]
      invariant forall t :: i <= t < dst.Length ==> dst[t] == old(dst[t])
    {
      dst[i] := a[i] - b[i];
      i := i + 1;
    }
  }

  /**
   * Draws for create_neural_network: one list per layer, long enough for the weights
   * the layer owns, each draw in [0, 1] as rand()/RAND_MAX is.
   */
  predicate Drawable(p: Parameters, draws: seq<seq<real>>)
  {
    && ValidParameters(p)
    && |draws| == |p.numNodes|
    && (forall k :: 0 <= k < |draws| ==> DrawsNeeded(p, k) <= |draws[k]|)
    && forall k, t :: 0 <= k < |draws| && 0 <= t < |draws[k]| ==> 0.0 <= draws[k][t] <= 1.0
  }

  /**
   * The layer values after the second loop of create_neural_network has drawn the
   * weights of layers 0 .. count-1: each such layer's first DrawsNeeded weights are
   * its draws.
   */
  ghost function WithDraws(ls: seq<LayerValue>, parameters: Parameters, draws: seq<seq<real>>, count: nat)
    : (r: seq<LayerValue>)
    requires Chain(ls) && Drawable(parameters, draws) && |ls| == |draws| && count <= |ls|
    ensures |r| == |ls|
  {
    seq(|ls|, k requires 0 <= k < |ls| =>
      if k < count then ls[k].(weightMatrix := Overwritten(ls[k].weightMatrix, draws[k], DrawsNeeded(parameters, k)))
      else ls[k])
  }

  /**
   * Layer k after the draws: below `count` only its weight matrix differs, its first
   * DrawsNeeded entries being its draws and the rest its old weights; from `count` on
   * it is unchanged.
   */
  lemma WithDrawsAt(ls: seq<LayerValue>, parameters: Parameters, draws: seq<seq<real>>, count: nat, k: nat)
    requires Chain(ls) && Drawable(parameters, draws) && |ls| == |draws| && count <= |ls|
    requires k < |ls|
    ensures var r := WithDraws(ls, parameters, draws, count)[k];
      && r.(weightMatrix := ls[k].weightMatrix) == ls[k]
      && |r.weightMatrix| == |ls[k].weightMatrix|
      && (k < count ==> forall t :: 0 <= t < DrawsNeeded(parameters, k) ==> r.weightMatrix[t] == draws[k][t])
      && (k < count ==> forall t :: DrawsNeeded(parameters, k) <= t < |r.weightMatrix| ==> r.weightMatrix[t] == ls[k].weightMatrix[t])
      && (count <= k ==> r == ls[k])
  {
  }

  /** Drawing layer `count` extends the draws of layers 0 .. count-1 by one layer. */
  lemma WithDrawsStep(ls: seq<LayerValue>, parameters: Parameters, draws: seq<seq<real>>, count: nat)
    requires Chain(ls) && Drawable(parameters, draws) && |ls| == |draws| && count < |ls|
    ensures var done := WithDraws(ls, parameters, draws, count);
      WithDraws(ls, parameters, draws, count + 1)
      == done[count := done[count].(weightMatrix := Overwritten(done[count].weightMatrix, draws[count], DrawsNeeded(parameters, count)))]
  {
  }

  /** The six buffers of layer l are owned by layer k. */
  ghost predicate OwnedBy(owner: map<array<real>, nat>, l: Layer, k: nat)
  {
    && l.Buffers() <= owner.Keys
    && (owner[l.input], owner[l.activation], owner[l.derivative], owner[l.weightMatrix], owner[l.weightUpdate], owner[l.delta])
       == (k, k, k, k, k, k)
  }

  /** The ownership map with the six buffers of l given to layer k. */
  ghost function Claim(owner: map<array<real>, nat>, l: Layer, k: nat): (r: map<array<real>, nat>)
    ensures OwnedBy(r, l, k)
    ensures r.Keys == owner.Keys + l.Buffers()
    ensures forall b :: b in owner && b !in l.Buffers() ==> r[b] == owner[b]
  {
    owner[l.input := k][l.activation := k][l.derivative := k][l.weightMatrix := k][l.weightUpdate := k][l.delta := k]
  }

  /**
   * The layer array of neural_network_t: `count` fresh layers with no neurons and no
   * neighbours, and the map from each of their buffers to the index of its layer.
   */
  method NewLayers(count: nat) returns (ls: seq<Layer>, ghost owner: map<array<real>, nat>)
    ensures |ls| == count
    ensures forall k :: 0 <= k < count ==> fresh(ls[k]) && ls[k].Valid() && OwnedBy(owner, ls[k], k)
    ensures fresh(owner.Keys)
  {
    ls, owner := [], map[];
    var k := 0;
    while k < count
      invariant k <= count && |ls| == k
      invariant forall j :: 0 <= j < k ==> fresh(ls[j]) && ls[j].Valid() && OwnedBy(owner, ls[j], j)
      invariant fresh(owner.Keys)
    {
      var l := new Layer();
      ghost var claimed := Claim(owner, l, k);
      forall j | 0 <= j < k
        ensures OwnedBy(claimed, ls[j], j)
      {
        assert OwnedBy(owner, ls[j], j);
      }
      owner := claimed;
      ls := ls + [l];
      k := k + 1;
    }
  }

  class Network {
    const layers: seq<Layer>
    const input: array<real>
    const output: array<real>
    const error: array<real>
    const learningRate: Rate
    const numHiddenLayers: nat

    /** The index of the layer that owns each buffer; its keys are all the buffers of the network. */
    ghost const owner: map<array<real>, nat>

    /** Every buffer of every layer. */
    ghost function Storage(): set<array<real>>
    {
      owner.Keys
    }

    /** Layer k's six buffers are owned by layer k. */
    ghost predicate Owns(k: nat)
      requires k < |layers|
    {
      OwnedBy(owner, layers[k], k)
    }

    /** h+2 valid layers, each owning its buffers, so that no two layers share one. */
    ghost predicate Allocated()
      reads layers
    {
      && MinHiddenLayers <= numHiddenLayers <= MaxHiddenLayers
      && |layers| == numHiddenLayers + 2
      && forall k :: 0 <= k < |layers| ==> layers[k].Valid() && Owns(k)
    }

    /**
     * Layer k in its place in the chain: its previous layer is layer k-1 (none for the
     * input layer), its next layer is layer k+1 (none for the output layer), and it
     * points to the network's learning rate.
     */
    ghost predicate Placed(k: nat)
      reads layers[k]
      requires k < |layers|
    {
      (layers[k].previous, layers[k].next, layers[k].learningRate)
      == (if k == 0 then null else layers[k - 1], if k + 1 < |layers| then layers[k + 1] else null, learningRate)
    }

    /**
     * The allocated layers in a chain, each pointing to the network's learning rate;
     * input, output and error are the input layer's input buffer and the output layer's
     * activation and delta buffers.
     */
    ghost predicate Valid()
      reads layers
    {
      && Allocated()
      && (forall k :: 0 <= k < |layers| ==> Placed(k))
      && (input, output, error) == (layers[0].input, layers[|layers| - 1].activation, layers[|layers| - 1].delta)
    }

    /** Two different layers of a valid network share no buffer. */
    lemma Apart(k: nat, k': nat)
      requires Allocated() && k < |layers| && k' < |layers| && k != k'
      ensures layers[k].Separate(layers[k'])
    {
      assert Owns(k) && Owns(k');
    }

    /**
     * Layer k of a valid network is valid, shares no buffer with its neighbours, and
     * its buffers and its neighbours' belong to the network's storage.
     */
    lemma Neighbours(k: nat)
      requires Valid() && k < |layers|
      ensures layers[k].Valid() && layers[k].Buffers() <= Storage()
      ensures layers[k].next != null ==>
        layers[k].next.Valid() && layers[k].Separate(layers[k].next) && layers[k].next.Buffers() <= Storage()
      ensures layers[k].previous != null ==>
        layers[k].previous.Valid() && layers[k].Separate(layers[k].previous) && layers[k].previous.Buffers() <= Storage()
    {
      assert Placed(k) && Owns(k);
      if k + 1 < |layers| {
        assert layers[k + 1].Valid() && Owns(k + 1);
        Apart(k, k + 1);
      }
      if k > 0 {
        assert layers[k - 1].Valid() && Owns(k - 1);
        Apart(k, k - 1);
      }
    }

    /** The layer values, input layer first. */
    ghost function Values(): (ls: seq<LayerValue>)
      reads layers, Storage()
      requires Valid()
      ensures |ls| == |layers| && Chain(ls)
      ensures forall k :: 0 <= k < |layers| ==> ls[k] == layers[k].Value()
    {
      seq(|layers|, k requires 0 <= k < |layers| && Valid() reads layers, Storage() =>
        assert Owns(k);
        layers[k].Value())
    }

    /**
     * When no layer object changes and only buffers owned by the layers in `changed` change, the
     * network stays valid and every other layer keeps its value.
     */
    twostate lemma Unaffected(changed: set<nat>)
      requires old(Valid())
      requires forall k :: 0 <= k < |layers| ==> unchanged(layers[k])
      requires forall b :: b in owner && owner[b] !in changed ==> unchanged(b)
      ensures Valid()
      ensures forall k :: 0 <= k < |layers| && k !in changed ==> Values()[k] == old(Values())[k]
    {
      forall k | 0 <= k < |layers| && k !in changed
        ensures Values()[k] == old(Values())[k]
      {
        var l := layers[k];
        assert Owns(k);
        l.Untouched();
      }
    }

    /**
     * create_neural_network: the layers get the parameters' node counts, the input layer
     * the identity and every other layer the sigmoid as activation, the chain links and
     * the learning rate; then every layer's weights are drawn, layer by layer, from
     * rand()/RAND_MAX, which draws[k] lists in order for layer k.
     */
    constructor (parameters: Parameters, draws: seq<seq<real>>)
      requires Drawable(parameters, draws)
      ensures Valid() && fresh(Storage())
      ensures numHiddenLayers == parameters.numHiddenLayers && learningRate.value == parameters.learningRate
      ensures forall k :: 0 <= k < |layers| ==> Linked(k, parameters)
      ensures forall k, t :: 0 <= k < |layers| && 0 <= t < DrawsNeeded(parameters, k) ==>
        layers[k].weightMatrix[t] == draws[k][t]
    {
      var h := parameters.numHiddenLayers;
      ghost var own;
      var ls;
      ls, own := NewLayers(h + 2);
      layers := ls;
      owner := own;
      input := ls[0].input;
      output := ls[h + 1].activation;
      error := ls[h + 1].delta;
      learningRate := new Rate(parameters.learningRate);
      numHiddenLayers := h;
      new;
      Link(parameters);
      ghost var start := Values();
      DrawWeights(parameters, draws);
      AllDrawn(start, parameters, draws);
    }

    /**
     * Layer k as the first loop of create_neural_network leaves it: its node count from
     * the parameters, its neighbours, the network's learning rate, and the identity as
     * activation pair for the input layer and the sigmoid for every other layer.
     */
    ghost predicate Linked(k: nat, parameters: Parameters)
      reads layers[k]
      requires k < |layers| && |parameters.numNodes| == |layers|
    {
      var l := layers[k];
      && l.numNodes == parameters.numNodes[k]
      && l.previous == (if k == 0 then null else layers[k - 1])
      && l.next == (if k + 1 < |layers| then layers[k + 1] else null)
      && l.learningRate == learningRate
      && l.activate == (if k == 0 then Activation.ToPassThrough else Activation.ToSigmoid)
      && l.derivate == (if k == 0 then Activation.ToPassThrough else Activation.ToSigmoidDerivative)
    }

    /**
     * The first loop of create_neural_network: initialize_neural_layer on every layer
     * with its node count and its neighbours, and the learning rate pointer.
     */
    method Link(parameters: Parameters)
      requires Allocated() && ValidParameters(parameters) && |parameters.numNodes| == |layers|
      requires input == layers[0].input
      requires output == layers[|layers| - 1].activation && error == layers[|layers| - 1].delta
      modifies layers
      ensures Valid()
      ensures forall k :: 0 <= k < |layers| ==> Linked(k, parameters)
    {
      var h := numHiddenLayers;
      var k := 0;
      while k < h + 2
        invariant k <= h + 2 && Allocated()
        invariant forall j :: 0 <= j < k ==> Linked(j, parameters)
      {
        LinkLayer(k, parameters);
        k := k + 1;
      }
      LinkedValid(parameters);
    }

    /** One pass of the first loop of create_neural_network, on layer k. */
    method LinkLayer(k: nat, parameters: Parameters)
      requires Allocated() && ValidParameters(parameters) && |parameters.numNodes| == |layers| && k < |layers|
      modifies layers[k]
      ensures Allocated() && Linked(k, parameters)
    {
      var previousLayer, nextLayer;
      if k == 0 {
        previousLayer, nextLayer := null, layers[1];
      } else if k == numHiddenLayers + 1 {
        previousLayer, nextLayer := layers[k - 1], null;
      } else {
        previousLayer, nextLayer := layers[k - 1], layers[k + 1];
      }
      forall j | 0 <= j < |layers| && j != k
        ensures layers[j] != layers[k]
      {
        Apart(j, k);
      }
      layers[k].Initialize(parameters.numNodes[k], previousLayer, nextLayer);
      layers[k].learningRate := learningRate;
    }

    /** A network whose layers are all linked as create_neural_network links them is valid. */
    lemma LinkedValid(parameters: Parameters)
      requires Allocated() && |parameters.numNodes| == |layers|
      requires input == layers[0].input
      requires output == layers[|layers| - 1].activation && error == layers[|layers| - 1].delta
      requires forall k :: 0 <= k < |layers| ==> Linked(k, parameters)
      ensures Valid()
    {
      forall k | 0 <= k < |layers|
        ensures Placed(k)
      {
        assert Linked(k, parameters);
      }
    }

    /** The second loop of create_neural_network: initialize_weight_matrix on every layer, input layer first. */
    method DrawWeights(parameters: Parameters, draws: seq<seq<real>>)
      requires Valid() && Drawable(parameters, draws) && |draws| == |layers|
      requires forall k :: 0 <= k < |layers| ==> Linked(k, parameters)
      modifies Storage()
      ensures Valid() && unchanged(learningRate)
      ensures forall k :: 0 <= k < |layers| ==> Linked(k, parameters)
      ensures Values() == WithDraws(old(Values()), parameters, draws, |layers|)
    {
      ghost var start := Values();
      var k := 0;
      while k < numHiddenLayers + 2
        invariant k <= |layers| && Valid()
        invariant forall j :: 0 <= j < |layers| ==> Linked(j, parameters)
        invariant Values() == WithDraws(start, parameters, draws, k)
      {
        DrawStep(k, parameters, draws);
        WithDrawsStep(start, parameters, draws, k);
        k := k + 1;
      }
    }

    /** Once every layer is drawn, the weights each layer owns are its draws. */
    lemma AllDrawn(start: seq<LayerValue>, parameters: Parameters, draws: seq<seq<real>>)
      requires Valid() && Chain(start) && Drawable(parameters, draws) && |start| == |draws| == |layers|
      requires Values() == WithDraws(start, parameters, draws, |layers|)
      ensures forall k, t :: 0 <= k < |layers| && 0 <= t < DrawsNeeded(parameters, k) ==>
        layers[k].weightMatrix[t] == draws[k][t]
    {
      forall k, t | 0 <= k < |layers| && 0 <= t < DrawsNeeded(parameters, k)
        ensures layers[k].weightMatrix[t] == draws[k][t]
      {
        WithDrawsAt(start, parameters, draws, |layers|, k);
        assert Values()[k] == layers[k].Value();
      }
    }

    /**
     * One pass of the second loop of create_neural_network, on layer k: the first
     * DrawsNeeded entries of its weight matrix become its draws, and nothing else in
     * the network changes.
     */
    method DrawStep(k: nat, parameters: Parameters, draws: seq<seq<real>>)
      requires Valid() && Drawable(parameters, draws) && |draws| == |layers|
      requires k < |layers| && forall j :: 0 <= j < |layers| ==> Linked(j, parameters)
      modifies layers[k].weightMatrix
      ensures Valid()
      ensures Values() == old(Values())[k := old(Values())[k].(weightMatrix :=
        Overwritten(old(Values())[k].weightMatrix, draws[k], DrawsNeeded(parameters, k)))]
    {
      assert Owns(k);
      DrawLayer(k, parameters, draws);
      Unaffected({k});
    }

    /** initialize_weight_matrix on layer k, which changes its weights only. */
    method DrawLayer(k: nat, parameters: Parameters, draws: seq<seq<real>>)
      requires Valid() && Drawable(parameters, draws) && |draws| == |layers|
      requires k < |layers| && forall j :: 0 <= j < |layers| ==> Linked(j, parameters)
      modifies layers[k].weightMatrix
      ensures layers[k].Value() == old(layers[k].Value()).(weightMatrix :=
        Overwritten(old(layers[k].weightMatrix[..]), draws[k], DrawsNeeded(parameters, k)))
    {
      Neighbours(k);
      assert Linked(k, parameters) && (k + 1 < |layers| ==> Linked(k + 1, parameters));
      assert DrawsNeeded(parameters, k) <= |draws[k]| && forall t :: 0 <= t < |draws[k]| ==> 0.0 <= draws[k][t] <= 1.0;
      ghost var count := layers[k].WeightCount();
      assert count == DrawsNeeded(parameters, k);
      layers[k].InitializeWeightMatrix(draws[k]);
    }

    /** One pass of feed_forward's loop: layer i is fed forward into layer i+1. */
    method ForwardStep(i: nat, exp: real -> real)
      requires Activation.IsExponential(exp)
      requires Valid() && i < |layers|
      modifies Storage()
      ensures Valid()
      ensures Values() == NetworkSpec.FeedLayerForward(old(Values()), i, exp)
    {
      ghost var before := Values();
      assert Owns(i);
      if i + 1 < |layers| {
        assert Owns(i + 1);
      }
      FeedLayer(i, exp);
      Unaffected({i, i + 1});
      ghost var after := Values();
      assert after[i] == Forwarded(before[i], exp);
      assert i + 1 < |layers| ==> after[i + 1] == Fed(after[i], before[i + 1]);
      FeedLayerForwardFrom(before, after, i, exp);
    }

    /** feed_layer_forward on layer i of a valid network, which changes layer i and layer i+1 only. */
    method FeedLayer(i: nat, exp: real -> real)
      requires Activation.IsExponential(exp)
      requires Valid() && i < |layers|
      modifies layers[i].activation, layers[i].derivative, if i + 1 < |layers| then {layers[i + 1].input} else {}
      ensures layers[i].Value() == Forwarded(old(layers[i].Value()), exp)
      ensures i + 1 < |layers| ==> layers[i + 1].Value() == Fed(layers[i].Value(), old(layers[i + 1].Value()))
    {
      Neighbours(i);
      assert Placed(i);
      layers[i].FeedLayerForward(exp);
    }

    /**
     * feed_forward: the input layer's inputs are copied from x, then every layer is fed
     * forward, input layer first.
     */
    method FeedForward(x: seq<real>, exp: real -> real)
      requires Activation.IsExponential(exp)
      requires Valid() && layers[0].numNodes <= |x|
      modifies Storage()
      ensures Valid()
      ensures Values() == NetworkSpec.FeedForward(old(Values()), x, exp)
    {
      CopyInput(x);
      FeedLayers(exp);
    }

    /** The second loop of feed_forward: every layer is fed forward, input layer first. */
    method FeedLayers(exp: real -> real)
      requires Activation.IsExponential(exp)
      requires Valid()
      modifies Storage()
      ensures Valid()
      ensures Values() == ForwardUpTo(old(Values()), |layers|, exp)
    {
      ghost var start := Values();
      var i := 0;
      while i < numHiddenLayers + 2
        invariant i <= |layers| && Valid()
        invariant Values() == ForwardUpTo(start, i, exp)
      {
        ghost var done := Values();
        ForwardStep(i, exp);
        assert ForwardUpTo(start, i + 1, exp) == FeedLayerForward(done, i, exp);
        i := i + 1;
      }
    }

    /** The first loop of feed_forward: the input layer's inputs are copied from x. */
    method CopyInput(x: seq<real>)
      requires Valid() && layers[0].numNodes <= |x|
      modifies Storage()
      ensures Valid()
      ensures Values() == SetInput(old(Values()), x)
    {
      ghost var start := Values();
      assert Owns(0);
      CopyPrefix(input, x, layers[0].numNodes);
      Unaffected({0});
      assert Values()[0] == SetInput(start, x)[0];
      assert Values() == SetInput(start, x);
    }

    /** The first loop of back_propagate: the output layer's delta becomes its activation minus the decision. */
    method OutputError(decision: seq<real>)
      requires Valid() && layers[|layers| - 1].numNodes <= |decision|
      modifies Storage()
      ensures Valid()
      ensures Values() == SetError(old(Values()), decision)
    {
      ghost var start := Values();
      var o := layers[numHiddenLayers + 1];
      assert Owns(numHiddenLayers + 1);
      Difference(error, o.activation, decision, o.numNodes);
      Unaffected({numHiddenLayers + 1});
      assert Values()[|layers| - 1] == SetError(start, decision)[|layers| - 1];
      assert Values() == SetError(start, decision);
    }

    /** One pass of back_propagate's second loop: layer i is fed backwards into layer i-1. */
    method BackwardStep(i: nat)
      requires Valid() && 1 <= i < |layers|
      modifies Storage()
      ensures Valid()
      ensures Values() == NetworkSpec.FeedLayerBackwards(old(Values()), i)
    {
      ghost var before := Values();
      Neighbours(i);
      assert Placed(i) && Owns(i - 1);
      layers[i].FeedLayerBackwards();
      Unaffected({i - 1});
      FeedLayerBackwardsFrom(before, Values(), i);
    }

    /**
     * back_propagate: the output layer's delta (the network's error) becomes its
     * activation minus the true decision, then every layer but the input layer is fed
     * backwards, output layer first.
     */
    method BackPropagate(decision: seq<real>)
      requires Valid() && layers[|layers| - 1].numNodes <= |decision|
      modifies Storage()
      ensures Valid()
      ensures Values() == NetworkSpec.BackPropagate(old(Values()), decision)
    {
      OutputError(decision);
      FeedBackwards();
    }

    /** The second loop of back_propagate: layers |layers|-1 down to 1 are fed backwards. */
    method FeedBackwards()
      requires Valid()
      modifies Storage()
      ensures Valid()
      ensures Values() == BackwardFrom(old(Values()), 1)
    {
      ghost var errored := Values();
      var i := numHiddenLayers + 1;
      while i > 0
        invariant 0 <= i < |layers| && Valid()
        invariant Values() == BackwardFrom(errored, i + 1)
      {
        ghost var done := Values();
        BackwardStep(i);
        assert BackwardFrom(errored, i) == FeedLayerBackwards(done, i);
        i := i - 1;
      }
    }

    /** One pass of update_weights' loop: layer i's weights are updated. */
    method UpdateStep(i: nat)
      requires Valid() && i < |layers|
      modifies Storage()
      ensures Valid()
      ensures Values() == NetworkSpec.UpdateWeightMatrix(old(Values()), i, learningRate.value)
    {
      ghost var before := Values();
      Neighbours(i);
      assert Placed(i) && Owns(i);
      layers[i].UpdateWeightMatrix();
      Unaffected({i});
      UpdateWeightMatrixFrom(before, Values(), i, learningRate.value);
    }

    /** update_weights: every layer's weights are updated, input layer first. */
    method UpdateWeights()
      requires Valid()
      modifies Storage()
      ensures Valid()
      ensures Values() == NetworkSpec.UpdateWeights(old(Values()), learningRate.value)
    {
      ghost var start := Values();
      var i := 0;
      while i < numHiddenLayers + 2
        invariant i <= |layers| && Valid()
        invariant Values() == UpdateUpTo(start, i, learningRate.value)
      {
        ghost var done := Values();
        UpdateStep(i);
        assert UpdateUpTo(start, i + 1, learningRate.value) == UpdateWeightMatrix(done, i, learningRate.value);
        i := i + 1;
      }
    }

    /** iterate_network: one training step on input x with the true decision, forward, backward, then the update. */
    method Iterate(x: seq<real>, decision: seq<real>, exp: real -> real)
      requires Activation.IsExponential(exp)
      requires Valid() && layers[0].numNodes <= |x| && layers[|layers| - 1].numNodes <= |decision|
      modifies Storage()
      ensures Valid()
      ensures Values() == NetworkSpec.Iterate(old(Values()), x, decision, learningRate.value, exp)
    {
      FeedForward(x, exp);
      BackPropagate(decision);
      UpdateWeights();
    }
  }
}
