/**
 The arithmetic the evaluator folds its operands with. Values are exact reals;
 a division by zero, where Java would continue with Infinity or NaN, gives
 DivByZero, which every later operation carries along.
 */
module Arith {

  datatype Num = Finite(r: real) | DivByZero

  datatype Op = AddOp | SubOp | MulOp | DivOp

  function Apply(op: Op, a: Num, b: Num): (c: Num)
    ensures c.DivByZero? <==> a.DivByZero? || b.DivByZero? || (op == DivOp && b == Finite(0.0))
    ensures a.Finite? && b.Finite? && op == AddOp ==> c == Finite(a.r + b.r)
    ensures a.Finite? && b.Finite? && op == SubOp ==> c == Finite(a.r - b.r)
    ensures a.Finite? && b.Finite? && op == MulOp ==> c == Finite(a.r * b.r)
    ensures a.Finite? && b.Finite? && op == DivOp && b.r != 0.0 ==> c == Finite(a.r / b.r)
  {
    if a.DivByZero? || b.DivByZero? then DivByZero
    else
      match op
      case AddOp => Finite(a.r + b.r)
      case SubOp => Finite(a.r - b.r)
      case MulOp => Finite(a.r * b.r)
      case DivOp => if b.r == 0.0 then DivByZero else Finite(a.r / b.r)
  }
}
