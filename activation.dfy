/** The activation functions of neural_network.c. */
module Activation {

  /**
   * `exp` behaves as an exponential function as far as this model needs: its values
   * are positive. The exponential of the C maths library is not part of this model;
   * it is a parameter of every operation that calls the sigmoid.
   */
  ghost predicate IsExponential(exp: real -> real)
  {
    forall y :: exp(y) > 0.0
  }

  /** pass_through: the identity, the activation and the "derivative" of the input layer. */
  function PassThrough(x: real): real
  {
    x
  }

  /** sigmoid: 1 / (1 + exp(-x)), which lies strictly between 0 and 1. */
  function Sigmoid(exp: real -> real, x: real): (r: real)
    requires IsExponential(exp)
    ensures 0.0 < r < 1.0
  {
    1.0 / (1.0 + exp(-x))
  }

  /** sigmoid_derivative: sigmoid(x) * (1 - sigmoid(x)), which lies in (0, 1/4]. */
  function SigmoidDerivative(exp: real -> real, x: real): (r: real)
    requires IsExponential(exp)
    ensures 0.0 < r <= 0.25
  {
    var s := Sigmoid(exp, x);
    assert (s - 0.5) * (s - 0.5) >= 0.0;
    s * (1.0 - s)
  }

  /** The target of a layer's activate or derivate function pointer: one of the three activation functions above. */
  datatype Pointer = ToPassThrough | ToSigmoid | ToSigmoidDerivative

  /** A call through the pointer; the sigmoid and its derivative use the exponential `exp`. */
  function Call(p: Pointer, exp: real -> real, x: real): (r: real)
    requires IsExponential(exp)
    ensures p == ToPassThrough ==> r == x
    ensures p == ToSigmoid ==> 0.0 < r < 1.0
    ensures p == ToSigmoidDerivative ==> 0.0 < r <= 0.25
  {
    match p
    case ToPassThrough => PassThrough(x)
    case ToSigmoid => Sigmoid(exp, x)
    case ToSigmoidDerivative => SigmoidDerivative(exp, x)
  }
}
