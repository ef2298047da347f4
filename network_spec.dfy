/**
 * A network as the sequence of its layer values, input layer first and output layer
 * last, and what feed_forward, back_propagate, update_weights and iterate_network do
 * to it. Layer i's previous_layer is layer i-1 and its next_layer is layer i+1.
 */
module NetworkSpec {
  import opened Limits
  import Helper
  import Activation
  import opened LayerSpec

  /** The layers of a network: at least one, each with the buffer lengths of neural_layer_t. */
  predicate Chain(ls: seq<LayerValue>)
  {
    |ls| >= 1 && forall k :: 0 <= k < |ls| ==> Shaped(ls[k])
  }

  /** Two layer sequences whose node counts and activation pairs agree layer by layer. */
  ghost predicate SameTopology(ls: seq<LayerValue>, ls': seq<LayerValue>)
  {
    && |ls| == |ls'|
    && forall k :: 0 <= k < |ls| ==>
         ls[k].numNodes == ls'[k].numNodes && ls[k].activate == ls'[k].activate && ls[k].derivate == ls'[k].derivate
  }

  /** feed_layer_forward on layer i: layer i is forwarded and, when there is a layer i+1, fed into it. */
  function FeedLayerForward(ls: seq<LayerValue>, i: nat, exp: real -> real): (r: seq<LayerValue>)
    requires Activation.IsExponential(exp)
    requires Chain(ls) && i < |ls|
    ensures Chain(r) && |r| == |ls|
  {
    var l := Forwarded(ls[i], exp);
    if i + 1 < |ls| then ls[i := l][i + 1 := Fed(l, ls[i + 1])] else ls[i := l]
  }

  /** feed_layer_backwards on layer i: layer i-1, when there is one, receives its delta. */
  function FeedLayerBackwards(ls: seq<LayerValue>, i: nat): (r: seq<LayerValue>)
    requires Chain(ls) && i < |ls|
    ensures Chain(r) && |r| == |ls|
  {
    if i == 0 then ls else ls[i - 1 := Backpropagated(ls[i], ls[i - 1])]
  }

  /** update_weight_matrix on layer i: only a layer with a next layer changes. */
  function UpdateWeightMatrix(ls: seq<LayerValue>, i: nat, rate: real): (r: seq<LayerValue>)
    requires Chain(ls) && i < |ls|
    ensures Chain(r) && |r| == |ls|
  {
    if i + 1 < |ls| then ls[i := Updated(ls[i], ls[i + 1], rate)] else ls
  }

  /** The first loop of feed_forward: the input layer's first numNodes inputs are copied from x. */
  function SetInput(ls: seq<LayerValue>, x: seq<real>): (r: seq<LayerValue>)
    requires Chain(ls) && ls[0].numNodes <= |x|
    ensures Chain(r) && |r| == |ls|
  {
    ls[0 := ls[0].(input := Overwritten(ls[0].input, x, ls[0].numNodes))]
  }

  /** The second loop of feed_forward after its first k rounds: layers 0 .. k-1 fed forward in increasing order. */
  function ForwardUpTo(ls: seq<LayerValue>, k: nat, exp: real -> real): (r: seq<LayerValue>)
    requires Activation.IsExponential(exp)
    requires Chain(ls) && k <= |ls|
    ensures Chain(r) && |r| == |ls|
  {
    if k == 0 then ls else FeedLayerForward(ForwardUpTo(ls, k - 1, exp), k - 1, exp)
  }

  /** feed_forward: copy the input, then feed every layer forward, input layer first. */
  function FeedForward(ls: seq<LayerValue>, x: seq<real>, exp: real -> real): (r: seq<LayerValue>)
    requires Activation.IsExponential(exp)
    requires Chain(ls) && ls[0].numNodes <= |x|
    ensures Chain(r) && SameTopology(ls, r)
  {
    ForwardUpToTopology(SetInput(ls, x), |ls|, exp);
    ForwardUpTo(SetInput(ls, x), |ls|, exp)
  }

  /** Feeding layers forward changes no layer's node count or activation functions. */
  lemma {:induction false} ForwardUpToTopology(ls: seq<LayerValue>, k: nat, exp: real -> real)
    requires Activation.IsExponential(exp)
    requires Chain(ls) && k <= |ls|
    ensures SameTopology(ls, ForwardUpTo(ls, k, exp))
  {
    if k > 0 {
      ForwardUpToTopology(ls, k - 1, exp);
    }
  }

  /** The first loop of back_propagate: the output layer's delta is its activation minus the true decision. */
  function SetError(ls: seq<LayerValue>, decision: seq<real>): (r: seq<LayerValue>)
    requires Chain(ls) && ls[|ls| - 1].numNodes <= |decision|
    ensures Chain(r) && |r| == |ls|
  {
    var o := ls[|ls| - 1];
    ls[|ls| - 1 := o.(delta := seq(|o.delta|, t requires 0 <= t < |o.delta| =>
      if t < o.numNodes then o.activation[t] - decision[t] else o.delta[t]))]
  }

  /** The second loop of back_propagate down to layer k: layers |ls|-1 .. k fed backwards in decreasing order. */
  function BackwardFrom(ls: seq<LayerValue>, k: nat): (r: seq<LayerValue>)
    requires Chain(ls) && 1 <= k <= |ls|
    ensures Chain(r) && |r| == |ls|
    decreases |ls| - k
  {
    if k == |ls| then ls else FeedLayerBackwards(BackwardFrom(ls, k + 1), k)
  }

  /** Feeding layers backwards changes no layer's node count or activation functions. */
  lemma {:induction false} BackwardFromTopology(ls: seq<LayerValue>, k: nat)
    requires Chain(ls) && 1 <= k <= |ls|
    ensures SameTopology(ls, BackwardFrom(ls, k))
    decreases |ls| - k
  {
    if k < |ls| {
      BackwardFromTopology(ls, k + 1);
    }
  }

  /** back_propagate: set the output error, then feed every layer but the input layer backwards, output layer first. */
  function BackPropagate(ls: seq<LayerValue>, decision: seq<real>): (r: seq<LayerValue>)
    requires Chain(ls) && ls[|ls| - 1].numNodes <= |decision|
    ensures Chain(r) && SameTopology(ls, r)
  {
    BackwardFromTopology(SetError(ls, decision), 1);
    BackwardFrom(SetError(ls, decision), 1)
  }

  /** The loop of update_weights after its first k rounds: layers 0 .. k-1 updated in increasing order. */
  function UpdateUpTo(ls: seq<LayerValue>, k: nat, rate: real): (r: seq<LayerValue>)
    requires Chain(ls) && k <= |ls|
    ensures Chain(r) && |r| == |ls|
  {
    if k == 0 then ls else UpdateWeightMatrix(UpdateUpTo(ls, k - 1, rate), k - 1, rate)
  }

  /** update_weights: every layer's weights updated, input layer first. */
  function UpdateWeights(ls: seq<LayerValue>, rate: real): (r: seq<LayerValue>)
    requires Chain(ls)
    ensures Chain(r) && |r| == |ls|
  {
    UpdateUpTo(ls, |ls|, rate)
  }

  /** iterate_network: one training step, forward, backward, then the weight update. */
  function Iterate(ls: seq<LayerValue>, x: seq<real>, decision: seq<real>, rate: real, exp: real -> real): (r: seq<LayerValue>)
    requires Activation.IsExponential(exp)
    requires Chain(ls) && ls[0].numNodes <= |x| && ls[|ls| - 1].numNodes <= |decision|
    ensures Chain(r) && |r| == |ls|
  {
    UpdateWeights(BackPropagate(FeedForward(ls, x, exp), decision), rate)
  }

  // ---------------------------------------------------------------------------
  // The forward pass in closed form

  /**
   * The input that layer k receives for the network input x, by the forward
   * recurrence: the input layer receives x, and layer k+1 receives the activations
   * of layer k (bias included) times layer k's weight matrix.
   */
  function Signal(ls: seq<LayerValue>, x: seq<real>, k: nat, exp: real -> real): (s: seq<real>)
    requires Activation.IsExponential(exp)
    requires Chain(ls) && k < |ls| && ls[0].numNodes <= |x|
    ensures |s| == ls[k].numNodes
    decreases k, 0
  {
    if k == 0 then
      x[..ls[0].numNodes]
    else
      var n, m := ls[k - 1].numNodes, ls[k].numNodes;
      var a := Activations(ls, x, k - 1, exp);
      WeightsFit(n, m);
      seq(m, j requires 0 <= j < m => Helper.Entry(a, ls[k - 1].weightMatrix, n + 1, m, 0, j))
  }

  /** The activations of layer k for the network input x, followed by the bias neuron's 1. */
  function Activations(ls: seq<LayerValue>, x: seq<real>, k: nat, exp: real -> real): (a: seq<real>)
    requires Activation.IsExponential(exp)
    requires Chain(ls) && k < |ls| && ls[0].numNodes <= |x|
    ensures |a| == ls[k].numNodes + 1
    decreases k, 1
  {
    var s := Signal(ls, x, k, exp);
    seq(|s|, t requires 0 <= t < |s| => Activation.Call(ls[k].activate, exp, s[t])) + [1.0]
  }

  /** The derivatives of layer k's neurons for the network input x. */
  function Derivatives(ls: seq<LayerValue>, x: seq<real>, k: nat, exp: real -> real): (d: seq<real>)
    requires Activation.IsExponential(exp)
    requires Chain(ls) && k < |ls| && ls[0].numNodes <= |x|
    ensures |d| == ls[k].numNodes
  {
    var s := Signal(ls, x, k, exp);
    seq(|s|, t requires 0 <= t < |s| => Activation.Call(ls[k].derivate, exp, s[t]))
  }

  /** Layer k after a forward pass on x: its input, activation and derivative buffers start with the recurrence's values. */
  function Closed(ls: seq<LayerValue>, x: seq<real>, k: nat, exp: real -> real): (l: LayerValue)
    requires Activation.IsExponential(exp)
    requires Chain(ls) && k < |ls| && ls[0].numNodes <= |x|
  {
    var l := ls[k];
    l.(input := Signal(ls, x, k, exp) + l.input[l.numNodes..],
       activation := Activations(ls, x, k, exp) + l.activation[l.numNodes + 1..],
       derivative := Derivatives(ls, x, k, exp) + l.derivative[l.numNodes..])
  }

  /** Forwarding a layer whose input holds the signal gives its closed form. */
  lemma ForwardedClosed(ls: seq<LayerValue>, x: seq<real>, k: nat, exp: real -> real)
    requires Activation.IsExponential(exp)
    requires Chain(ls) && k < |ls| && ls[0].numNodes <= |x|
    ensures Forwarded(Pending(ls, x, k, exp), exp) == Closed(ls, x, k, exp)
  {
    var l := Pending(ls, x, k, exp);
    var f, c := Forwarded(l, exp), Closed(ls, x, k, exp);
    assert f.activation == c.activation;
    assert f.derivative == c.derivative;
  }

  /** Feeding a layer in closed form into the next layer puts the signal into that layer's input. */
  lemma FedClosed(ls: seq<LayerValue>, x: seq<real>, k: nat, exp: real -> real)
    requires Activation.IsExponential(exp)
    requires Chain(ls) && k + 1 < |ls| && ls[0].numNodes <= |x|
    ensures Fed(Closed(ls, x, k, exp), ls[k + 1]) == Pending(ls, x, k + 1, exp)
  {
    var inner, m := ls[k].numNodes + 1, ls[k + 1].numNodes;
    var c := Closed(ls, x, k, exp);
    var a := Activations(ls, x, k, exp);
    var w := ls[k].weightMatrix;
    WeightsFit(inner - 1, m);
    assert c.activation[0 * inner..0 * inner + inner] == a[0 * inner..0 * inner + inner];
    forall j | 0 <= j < m
      ensures Helper.Entry(c.activation, w, inner, m, 0, j) == Helper.Entry(a, w, inner, m, 0, j)
    {
      Helper.EntryRowFrame(c.activation, a, w, inner, m, 0, j);
    }
    assert Fed(c, ls[k + 1]).input == Signal(ls, x, k + 1, exp) + ls[k + 1].input[m..];
  }

  /** Layer k when its turn in the forward loop comes: its input already holds the signal. */
  function Pending(ls: seq<LayerValue>, x: seq<real>, k: nat, exp: real -> real): LayerValue
    requires Activation.IsExponential(exp)
    requires Chain(ls) && k < |ls| && ls[0].numNodes <= |x|
  {
    ls[k].(input := Signal(ls, x, k, exp) + ls[k].input[ls[k].numNodes..])
  }

  /** Copying the network input leaves the input layer waiting with its signal. */
  lemma SetInputPending(ls: seq<LayerValue>, x: seq<real>, exp: real -> real)
    requires Activation.IsExponential(exp)
    requires Chain(ls) && ls[0].numNodes <= |x|
    ensures SetInput(ls, x)[0] == Pending(ls, x, 0, exp)
  {
    assert SetInput(ls, x)[0].input == Signal(ls, x, 0, exp) + ls[0].input[ls[0].numNodes..];
  }

  /** After the first p rounds of the forward loop, the layers after layer p are untouched. */
  lemma {:induction false} ForwardUpToUntouched(ls: seq<LayerValue>, x: seq<real>, p: nat, k: nat, exp: real -> real)
    requires Activation.IsExponential(exp)
    requires Chain(ls) && ls[0].numNodes <= |x| && p < k < |ls|
    ensures ForwardUpTo(SetInput(ls, x), p, exp)[k] == ls[k]
  {
    if p > 0 {
      ForwardUpToUntouched(ls, x, p - 1, k, exp);
      ForwardRoundKeeps(ls, x, p, k, exp);
    }
  }

  /** After the first p rounds of the forward loop, layer p holds its signal as input and nothing else has changed in it. */
  lemma {:induction false} ForwardUpToPending(ls: seq<LayerValue>, x: seq<real>, p: nat, exp: real -> real)
    requires Activation.IsExponential(exp)
    requires Chain(ls) && ls[0].numNodes <= |x| && p < |ls|
    ensures ForwardUpTo(SetInput(ls, x), p, exp)[p] == Pending(ls, x, p, exp)
  {
    if p == 0 {
      SetInputPending(ls, x, exp);
    } else {
      ForwardUpToPending(ls, x, p - 1, exp);
      ForwardUpToUntouched(ls, x, p - 1, p, exp);
      ForwardRoundFeeds(ls, x, p, p, exp);
    }
  }

  /** After the first p rounds of the forward loop, layers 0 .. p-1 are in closed form. */
  lemma {:induction false} ForwardUpToClosed(ls: seq<LayerValue>, x: seq<real>, p: nat, k: nat, exp: real -> real)
    requires Activation.IsExponential(exp)
    requires Chain(ls) && ls[0].numNodes <= |x| && k < p <= |ls|
    ensures ForwardUpTo(SetInput(ls, x), p, exp)[k] == Closed(ls, x, k, exp)
  {
    if k == p - 1 {
      ForwardUpToPending(ls, x, k, exp);
      ForwardRoundCloses(ls, x, p, k, exp);
    } else {
      ForwardUpToClosed(ls, x, p - 1, k, exp);
      ForwardRoundKeeps(ls, x, p, k, exp);
    }
  }

  /** Round p-1 of the forward loop turns the pending layer k = p-1 into its closed form. */
  lemma ForwardRoundCloses(ls: seq<LayerValue>, x: seq<real>, p: nat, k: nat, exp: real -> real)
    requires Activation.IsExponential(exp)
    requires Chain(ls) && ls[0].numNodes <= |x| && p <= |ls| && k + 1 == p
    requires ForwardUpTo(SetInput(ls, x), k, exp)[k] == Pending(ls, x, k, exp)
    ensures ForwardUpTo(SetInput(ls, x), p, exp)[k] == Closed(ls, x, k, exp)
  {
    FeedLayerForwardAt(ForwardUpTo(SetInput(ls, x), k, exp), k, k, exp);
    ForwardedClosed(ls, x, k, exp);
  }

  /** Round p-1 of the forward loop feeds the closed form of layer p-1 into the untouched layer k = p, which becomes pending. */
  lemma ForwardRoundFeeds(ls: seq<LayerValue>, x: seq<real>, p: nat, k: nat, exp: real -> real)
    requires Activation.IsExponential(exp)
    requires Chain(ls) && ls[0].numNodes <= |x| && 0 < p < |ls| && k == p
    requires ForwardUpTo(SetInput(ls, x), p - 1, exp)[p - 1] == Pending(ls, x, p - 1, exp)
    requires ForwardUpTo(SetInput(ls, x), p - 1, exp)[k] == ls[k]
    ensures ForwardUpTo(SetInput(ls, x), p, exp)[k] == Pending(ls, x, k, exp)
  {
    FeedLayerForwardAt(ForwardUpTo(SetInput(ls, x), p - 1, exp), p - 1, k, exp);
    ForwardedClosed(ls, x, p - 1, exp);
    FedClosed(ls, x, p - 1, exp);
  }

  /** Round p-1 of the forward loop leaves every layer but p-1 and p as it was. */
  lemma ForwardRoundKeeps(ls: seq<LayerValue>, x: seq<real>, p: nat, k: nat, exp: real -> real)
    requires Activation.IsExponential(exp)
    requires Chain(ls) && ls[0].numNodes <= |x| && 0 < p <= |ls| && k < |ls| && k != p - 1 && k != p
    ensures ForwardUpTo(SetInput(ls, x), p, exp)[k] == ForwardUpTo(SetInput(ls, x), p - 1, exp)[k]
  {
    FeedLayerForwardAt(ForwardUpTo(SetInput(ls, x), p - 1, exp), p - 1, k, exp);
  }

  /** feed_layer_forward on layer i changes layers i and i+1 only. */
  lemma FeedLayerForwardAt(ls: seq<LayerValue>, i: nat, k: nat, exp: real -> real)
    requires Activation.IsExponential(exp)
    requires Chain(ls) && i < |ls| && k < |ls|
    ensures FeedLayerForward(ls, i, exp)[k]
         == if k == i then Forwarded(ls[i], exp) else if k == i + 1 then Fed(Forwarded(ls[i], exp), ls[i + 1]) else ls[k]
  {
  }

  /** A sequence that differs from ls only in layer i, forwarded, and layer i+1, fed from it, is feed_layer_forward's result. */
  lemma FeedLayerForwardFrom(ls: seq<LayerValue>, r: seq<LayerValue>, i: nat, exp: real -> real)
    requires Activation.IsExponential(exp)
    requires Chain(ls) && i < |ls| && |r| == |ls|
    requires r[i] == Forwarded(ls[i], exp)
    requires i + 1 < |ls| ==> r[i + 1] == Fed(r[i], ls[i + 1])
    requires forall k :: 0 <= k < |ls| && k != i && k != i + 1 ==> r[k] == ls[k]
    ensures r == FeedLayerForward(ls, i, exp)
  {
    forall k | 0 <= k < |ls|
      ensures r[k] == FeedLayerForward(ls, i, exp)[k]
    {
      FeedLayerForwardAt(ls, i, k, exp);
    }
  }

  /**
   * feed_forward in closed form: every layer's input, activations (bias included)
   * and derivatives are those of the forward recurrence, because the layers are fed
   * in increasing order; nothing else changes.
   */
  lemma FeedForwardClosedForm(ls: seq<LayerValue>, x: seq<real>, exp: real -> real)
    requires Activation.IsExponential(exp)
    requires Chain(ls) && ls[0].numNodes <= |x|
    ensures forall k :: 0 <= k < |ls| ==> FeedForward(ls, x, exp)[k] == Closed(ls, x, k, exp)
  {
    forall k | 0 <= k < |ls|
      ensures FeedForward(ls, x, exp)[k] == Closed(ls, x, k, exp)
    {
      ForwardUpToClosed(ls, x, |ls|, k, exp);
    }
  }

  /**
   * Layer k after feed_forward, without the closed form's unchanged tails: the same
   * weights, deltas and node count, and the recurrence's activations and derivatives.
   */
  lemma FeedForwardAt(ls: seq<LayerValue>, x: seq<real>, k: nat, exp: real -> real)
    requires Activation.IsExponential(exp)
    requires Chain(ls) && ls[0].numNodes <= |x| && k < |ls|
    ensures var l := FeedForward(ls, x, exp)[k];
      && l.numNodes == ls[k].numNodes
      && l.weightMatrix == ls[k].weightMatrix
      && l.delta == ls[k].delta
      && l.activation[..ls[k].numNodes + 1] == Activations(ls, x, k, exp)
      && l.derivative[..ls[k].numNodes] == Derivatives(ls, x, k, exp)
  {
    ForwardUpToClosed(ls, x, |ls|, k, exp);
  }

  /** The forward recurrence depends on each layer only through its node count, activation function and weights. */
  lemma {:induction false} SignalDependsOnWeights(ls: seq<LayerValue>, ls': seq<LayerValue>, x: seq<real>, k: nat, exp: real -> real)
    requires Activation.IsExponential(exp)
    requires Chain(ls) && Chain(ls') && SameTopology(ls, ls') && k < |ls| && ls[0].numNodes <= |x|
    requires forall i :: 0 <= i < |ls| ==> ls[i].weightMatrix == ls'[i].weightMatrix
    ensures Signal(ls, x, k, exp) == Signal(ls', x, k, exp)
    ensures Activations(ls, x, k, exp) == Activations(ls', x, k, exp)
    ensures Derivatives(ls, x, k, exp) == Derivatives(ls', x, k, exp)
  {
    if k > 0 {
      SignalDependsOnWeights(ls, ls', x, k - 1, exp);
    }
  }

  /** A layer in closed form is left in closed form by a second forward pass on the same input. */
  lemma ClosedStable(ls: seq<LayerValue>, x: seq<real>, k: nat, exp: real -> real)
    requires Activation.IsExponential(exp)
    requires Chain(ls) && ls[0].numNodes <= |x| && k < |ls|
    ensures Closed(FeedForward(ls, x, exp), x, k, exp) == Closed(ls, x, k, exp)
  {
    var r := FeedForward(ls, x, exp);
    FeedForwardClosedForm(ls, x, exp);
    forall i | 0 <= i < |ls|
      ensures r[i].weightMatrix == ls[i].weightMatrix
    {
    }
    SignalDependsOnWeights(r, ls, x, k, exp);
    var n := ls[k].numNodes;
    assert r[k].input[n..] == ls[k].input[n..];
    assert r[k].activation[n + 1..] == ls[k].activation[n + 1..];
    assert r[k].derivative[n..] == ls[k].derivative[n..];
  }

  /** feed_forward is idempotent: a second pass on the same input changes nothing. */
  lemma FeedForwardIdempotent(ls: seq<LayerValue>, x: seq<real>, exp: real -> real)
    requires Activation.IsExponential(exp)
    requires Chain(ls) && ls[0].numNodes <= |x|
    ensures FeedForward(FeedForward(ls, x, exp), x, exp) == FeedForward(ls, x, exp)
  {
    var r := FeedForward(ls, x, exp);
    FeedForwardClosedForm(ls, x, exp);
    FeedForwardClosedForm(r, x, exp);
    forall k | 0 <= k < |ls|
      ensures FeedForward(r, x, exp)[k] == r[k]
    {
      ClosedStable(ls, x, k, exp);
    }
  }

  /**
   * After feed_forward, the input layer's activations are the network input when it
   * passes its input through, followed by the bias neuron's 1.
   */
  lemma InputLayerPassesThrough(ls: seq<LayerValue>, x: seq<real>, exp: real -> real)
    requires Activation.IsExponential(exp)
    requires Chain(ls) && ls[0].numNodes <= |x| && ls[0].activate == Activation.ToPassThrough
    ensures FeedForward(ls, x, exp)[0].activation[..ls[0].numNodes] == x[..ls[0].numNodes]
    ensures FeedForward(ls, x, exp)[0].activation[ls[0].numNodes] == 1.0
  {
    FeedForwardClosedForm(ls, x, exp);
    var n := ls[0].numNodes;
    assert FeedForward(ls, x, exp)[0].activation[..n] == Activations(ls, x, 0, exp)[..n];
  }

  /**
   * After feed_forward, every neuron of a sigmoid layer has an activation strictly
   * between 0 and 1 and a derivative in (0, 1/4].
   */
  lemma SigmoidLayerRange(ls: seq<LayerValue>, x: seq<real>, k: nat, exp: real -> real)
    requires Activation.IsExponential(exp)
    requires Chain(ls) && ls[0].numNodes <= |x| && k < |ls|
    requires ls[k].activate == Activation.ToSigmoid && ls[k].derivate == Activation.ToSigmoidDerivative
    ensures forall t :: 0 <= t < ls[k].numNodes ==>
      && 0.0 < FeedForward(ls, x, exp)[k].activation[t] < 1.0
      && 0.0 < FeedForward(ls, x, exp)[k].derivative[t] <= 0.25
  {
    FeedForwardClosedForm(ls, x, exp);
  }

  // ---------------------------------------------------------------------------
  // Back-propagation

  /** feed_layer_backwards on layer i changes layer i-1 only. */
  lemma FeedLayerBackwardsAt(ls: seq<LayerValue>, i: nat, k: nat)
    requires Chain(ls) && 1 <= i < |ls| && k < |ls|
    ensures FeedLayerBackwards(ls, i)[k] == if k == i - 1 then Backpropagated(ls[i], ls[i - 1]) else ls[k]
  {
  }

  /** A sequence that differs from ls only in layer i-1, back-propagated from layer i, is feed_layer_backwards' result. */
  lemma FeedLayerBackwardsFrom(ls: seq<LayerValue>, r: seq<LayerValue>, i: nat)
    requires Chain(ls) && 1 <= i < |ls| && |r| == |ls|
    requires r[i - 1] == Backpropagated(ls[i], ls[i - 1])
    requires forall k :: 0 <= k < |ls| && k != i - 1 ==> r[k] == ls[k]
    ensures r == FeedLayerBackwards(ls, i)
  {
    forall k | 0 <= k < |ls|
      ensures r[k] == FeedLayerBackwards(ls, i)[k]
    {
      FeedLayerBackwardsAt(ls, i, k);
    }
  }

  /**
   * After the backward loop has handled layers |s|-1 down to p, layers below p-1 and
   * the output layer are untouched, and each layer k from p-1 up is the original
   * layer k back-propagated from the final layer k+1.
   */
  lemma {:induction false} BackwardFromAt(s: seq<LayerValue>, p: nat, k: nat)
    requires Chain(s) && 1 <= p <= |s| && k < |s|
    decreases |s| - p
    ensures var b := BackwardFrom(s, p);
      && (k + 1 < p || k == |s| - 1 ==> b[k] == s[k])
      && (p <= k + 1 < |s| ==> b[k] == Backpropagated(b[k + 1], s[k]))
  {
    if p < |s| {
      var c := BackwardFrom(s, p + 1);
      BackwardFromAt(s, p + 1, k);
      FeedLayerBackwardsAt(c, p, k);
      if k + 1 < |s| {
        FeedLayerBackwardsAt(c, p, k + 1);
      }
    }
  }

  /** back_propagate changes nothing but the deltas of real neurons. */
  lemma BackPropagateFrame(ls: seq<LayerValue>, decision: seq<real>, k: nat)
    requires Chain(ls) && ls[|ls| - 1].numNodes <= |decision| && k < |ls|
    ensures var r := BackPropagate(ls, decision);
      && r[k] == ls[k].(delta := r[k].delta)
      && r[k].delta[ls[k].numNodes..] == ls[k].delta[ls[k].numNodes..]
  {
    var s := SetError(ls, decision);
    var r := BackPropagate(ls, decision);
    BackwardFromAt(s, 1, k);
    if k + 1 < |ls| {
      assert s[k] == ls[k];
      BackpropagatedFrame(r[k + 1], ls[k]);
    } else {
      assert s[k].delta[ls[k].numNodes..] == ls[k].delta[ls[k].numNodes..];
    }
  }

  /**
   * Layer k after back_propagate, when it is not the output layer: the original layer
   * k back-propagated from the final layer k+1.
   */
  lemma BackPropagateAt(ls: seq<LayerValue>, decision: seq<real>, k: nat)
    requires Chain(ls) && ls[|ls| - 1].numNodes <= |decision| && k + 1 < |ls|
    ensures var r := BackPropagate(ls, decision);
      r[k] == Backpropagated(r[k + 1], ls[k])
  {
    BackwardFromAt(SetError(ls, decision), 1, k);
  }

  /** The output layer after back_propagate: its delta is its activation minus the true decision. */
  lemma BackPropagateOutput(ls: seq<LayerValue>, decision: seq<real>)
    requires Chain(ls) && ls[|ls| - 1].numNodes <= |decision|
    ensures var r := BackPropagate(ls, decision);
      var o := ls[|ls| - 1];
      && r[|ls| - 1] == o.(delta := r[|ls| - 1].delta)
      && r[|ls| - 1].delta[o.numNodes..] == o.delta[o.numNodes..]
      && forall t :: 0 <= t < o.numNodes ==> r[|ls| - 1].delta[t] == o.activation[t] - decision[t]
  {
    var s := SetError(ls, decision);
    var o := ls[|ls| - 1];
    assert s[|ls| - 1].delta[o.numNodes..] == o.delta[o.numNodes..];
    BackwardFromAt(s, 1, |ls| - 1);
  }

  /**
   * back_propagate: the output layer's delta is its activation minus the true
   * decision; every other layer is the original layer back-propagated from the
   * final delta of the next layer, which holds because the layers are handled output
   * layer first; nothing but the deltas of real neurons changes.
   */
  lemma BackPropagateChain(ls: seq<LayerValue>, decision: seq<real>)
    requires Chain(ls) && ls[|ls| - 1].numNodes <= |decision|
    ensures var r := BackPropagate(ls, decision);
      var last := |ls| - 1;
      && (forall k :: 0 <= k < |ls| ==> r[k] == ls[k].(delta := r[k].delta))
      && (forall k :: 0 <= k < |ls| ==> r[k].delta[ls[k].numNodes..] == ls[k].delta[ls[k].numNodes..])
      && (forall t :: 0 <= t < ls[last].numNodes ==> r[last].delta[t] == ls[last].activation[t] - decision[t])
      && (forall k :: 0 <= k < last ==> r[k] == Backpropagated(r[k + 1], ls[k]))
  {
    BackPropagateOutput(ls, decision);
    forall k | 0 <= k < |ls|
      ensures var r := BackPropagate(ls, decision);
        && r[k] == ls[k].(delta := r[k].delta)
        && r[k].delta[ls[k].numNodes..] == ls[k].delta[ls[k].numNodes..]
    {
      BackPropagateFrame(ls, decision, k);
    }
    forall k | 0 <= k < |ls| - 1 {
      BackPropagateAt(ls, decision, k);
    }
  }

  // ---------------------------------------------------------------------------
  // Weight update

  /** update_weight_matrix on layer i changes layer i only. */
  lemma UpdateWeightMatrixAt(ls: seq<LayerValue>, i: nat, k: nat, rate: real)
    requires Chain(ls) && i < |ls| && k < |ls|
    ensures UpdateWeightMatrix(ls, i, rate)[k] == if k == i && i + 1 < |ls| then Updated(ls[i], ls[i + 1], rate) else ls[k]
  {
  }

  /** A sequence that differs from ls only in layer i, updated against layer i+1 when there is one, is update_weight_matrix's result. */
  lemma UpdateWeightMatrixFrom(ls: seq<LayerValue>, r: seq<LayerValue>, i: nat, rate: real)
    requires Chain(ls) && i < |ls| && |r| == |ls|
    requires r[i] == if i + 1 < |ls| then Updated(ls[i], ls[i + 1], rate) else ls[i]
    requires forall k :: 0 <= k < |ls| && k != i ==> r[k] == ls[k]
    ensures r == UpdateWeightMatrix(ls, i, rate)
  {
    forall k | 0 <= k < |ls|
      ensures r[k] == UpdateWeightMatrix(ls, i, rate)[k]
    {
      UpdateWeightMatrixAt(ls, i, k, rate);
    }
  }

  /** After the first p rounds of update_weights, layers 0 .. p-1 are updated against the unchanged next layer. */
  lemma {:induction false} UpdateUpToAt(ls: seq<LayerValue>, p: nat, k: nat, rate: real)
    requires Chain(ls) && p <= |ls| && k < |ls|
    ensures UpdateUpTo(ls, p, rate)[k] == if k < p && k + 1 < |ls| then Updated(ls[k], ls[k + 1], rate) else ls[k]
  {
    if p > 0 {
      var q := UpdateUpTo(ls, p - 1, rate);
      UpdateWeightMatrixAt(q, p - 1, k, rate);
      if k == p - 1 {
        UpdateUpToAt(ls, p - 1, k, rate);
        if p < |ls| {
          UpdateUpToAt(ls, p - 1, p, rate);
        }
      } else {
        UpdateUpToAt(ls, p - 1, k, rate);
      }
    }
  }

  /**
   * update_weights: every layer with a next layer is updated against that layer's
   * delta, which no update changes; the output layer is left as it is.
   */
  lemma UpdateWeightsEffect(ls: seq<LayerValue>, rate: real)
    requires Chain(ls)
    ensures forall k :: 0 <= k < |ls| ==>
      UpdateWeights(ls, rate)[k] == if k + 1 < |ls| then Updated(ls[k], ls[k + 1], rate) else ls[k]
  {
    forall k | 0 <= k < |ls|
      ensures UpdateWeights(ls, rate)[k] == if k + 1 < |ls| then Updated(ls[k], ls[k + 1], rate) else ls[k]
    {
      UpdateUpToAt(ls, |ls|, k, rate);
    }
  }

  // ---------------------------------------------------------------------------
  // One training step

  /**
   * Layer k after iterate_network, when it has a next layer: the layer as
   * back-propagation left it, which still has its original weights and this input's
   * activations, updated against the next layer's back-propagated delta.
   */
  lemma IterateLayer(ls: seq<LayerValue>, x: seq<real>, decision: seq<real>, rate: real, k: nat, exp: real -> real)
    requires Activation.IsExponential(exp)
    requires Chain(ls) && ls[0].numNodes <= |x| && ls[|ls| - 1].numNodes <= |decision| && k + 1 < |ls|
    ensures var b := BackPropagate(FeedForward(ls, x, exp), decision);
      && b[k].numNodes == ls[k].numNodes
      && b[k + 1].numNodes == ls[k + 1].numNodes
      && b[k].weightMatrix == ls[k].weightMatrix
      && b[k].activation[..ls[k].numNodes + 1] == Activations(ls, x, k, exp)
      && Iterate(ls, x, decision, rate, exp)[k] == Updated(b[k], b[k + 1], rate)
  {
    var f := FeedForward(ls, x, exp);
    var b := BackPropagate(f, decision);
    FeedForwardAt(ls, x, k, exp);
    BackPropagateFrame(f, decision, k);
    UpdateUpToAt(b, |b|, k, rate);
  }

  /** The output layer's weights are not changed by iterate_network. */
  lemma IterateKeepsOutputWeights(ls: seq<LayerValue>, x: seq<real>, decision: seq<real>, rate: real, exp: real -> real)
    requires Activation.IsExponential(exp)
    requires Chain(ls) && ls[0].numNodes <= |x| && ls[|ls| - 1].numNodes <= |decision|
    ensures Iterate(ls, x, decision, rate, exp)[|ls| - 1].weightMatrix == ls[|ls| - 1].weightMatrix
  {
    var f := FeedForward(ls, x, exp);
    var b := BackPropagate(f, decision);
    FeedForwardAt(ls, x, |ls| - 1, exp);
    BackPropagateFrame(f, decision, |ls| - 1);
    UpdateUpToAt(b, |b|, |ls| - 1, rate);
  }

  /**
   * The output error of one training step in terms of the forward recurrence: the
   * output layer's activation for this input minus the true decision.
   */
  lemma IterateOutputError(ls: seq<LayerValue>, x: seq<real>, decision: seq<real>, exp: real -> real)
    requires Activation.IsExponential(exp)
    requires Chain(ls) && ls[0].numNodes <= |x| && ls[|ls| - 1].numNodes <= |decision|
    ensures var b := BackPropagate(FeedForward(ls, x, exp), decision);
      forall t :: 0 <= t < ls[|ls| - 1].numNodes ==> b[|ls| - 1].delta[t] == Activations(ls, x, |ls| - 1, exp)[t] - decision[t]
  {
    var f := FeedForward(ls, x, exp);
    var last := |ls| - 1;
    FeedForwardAt(ls, x, last, exp);
    BackPropagateOutput(f, decision);
    forall t | 0 <= t < ls[last].numNodes
      ensures f[last].activation[t] == Activations(ls, x, last, exp)[t]
    {
      assert f[last].activation[t] == f[last].activation[..ls[last].numNodes + 1][t];
    }
  }
}
