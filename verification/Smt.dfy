/** The fragment of Z3's integer and boolean terms that the tracer builds, with its meaning. */
module Smt {

  /** `Var(c, p)` is the constant named "c.p": parameter p of the c-th top-level call. */
  datatype IntExpr =
    | Const(n: int)
    | Var(command: nat, parameter: nat)
    | Add(l: IntExpr, r: IntExpr)
    | Sub(l: IntExpr, r: IntExpr)
    | Mul(l: IntExpr, r: IntExpr)
    | Div(l: IntExpr, r: IntExpr)
    | Rem(l: IntExpr, r: IntExpr)     // the `%` operator
    | Mod(l: IntExpr, r: IntExpr)     // the `modulo` method
    | Ite(c: BoolExpr, t: IntExpr, e: IntExpr)

  datatype BoolExpr =
    | Eq(l: IntExpr, r: IntExpr)
    | Lt(l: IntExpr, r: IntExpr)
    | Le(l: IntExpr, r: IntExpr)
    | Gt(l: IntExpr, r: IntExpr)
    | Ge(l: IntExpr, r: IntExpr)
    | Not(b: BoolExpr)

  /** An interpretation: values for the constants, and for the results that Z3 leaves open when a
      divisor is zero. */
  datatype Model = Model(vars: (nat, nat) -> int, divZero: int -> int, remZero: int -> int, modZero: int -> int)

  function Eval(e: IntExpr, m: Model): int {
    match e
    case Const(n) => n
    case Var(c, p) => m.vars(c, p)
    case Add(l, r) => Eval(l, m) + Eval(r, m)
    case Sub(l, r) => Eval(l, m) - Eval(r, m)
    case Mul(l, r) => Eval(l, m) * Eval(r, m)
    case Div(l, r) =>
      var d := Eval(r, m);
      if d == 0 then m.divZero(Eval(l, m)) else Eval(l, m) / d
    case Rem(l, r) =>
      var d := Eval(r, m);
      if d == 0 then m.remZero(Eval(l, m)) else if d > 0 then Eval(l, m) % d else -(Eval(l, m) % d)
    case Mod(l, r) =>
      var d := Eval(r, m);
      if d == 0 then m.modZero(Eval(l, m)) else Eval(l, m) % d
    case Ite(c, t, e) => if Holds(c, m) then Eval(t, m) else Eval(e, m)
  }

  predicate Holds(b: BoolExpr, m: Model) {
    match b
    case Eq(l, r) => Eval(l, m) == Eval(r, m)
    case Lt(l, r) => Eval(l, m) < Eval(r, m)
    case Le(l, r) => Eval(l, m) <= Eval(r, m)
    case Gt(l, r) => Eval(l, m) > Eval(r, m)
    case Ge(l, r) => Eval(l, m) >= Eval(r, m)
    case Not(c) => !Holds(c, m)
  }
}
