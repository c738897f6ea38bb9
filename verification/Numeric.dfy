/** IEEE doubles without rounding: exact reals plus NaN and the two infinities,
    and the integer casts of the C++ code. */
module Numeric {

  datatype Option<+T> = None | Some(value: T)

  datatype Num = Fin(r: real) | NaN | PosInf | NegInf

  const ZERO := Fin(0.0)

  function Neg(x: Num): Num {
    match x
    case Fin(r) => Fin(-r)
    case NaN => NaN
    case PosInf => NegInf
    case NegInf => PosInf
  }

  function Add(x: Num, y: Num): Num {
    match (x, y)
    case (Fin(a), Fin(b)) => Fin(a + b)
    case (NaN, _) => NaN
    case (_, NaN) => NaN
    case (Fin(_), _) => y
    case (_, Fin(_)) => x
    case (PosInf, PosInf) => PosInf
    case (NegInf, NegInf) => NegInf
    case _ => NaN
  }

  function Sub(x: Num, y: Num): Num { Add(x, Neg(y)) }

  /** -1, 0 or 1; NaN counts as 0. */
  function Sign(x: Num): int {
    match x
    case Fin(r) => if r > 0.0 then 1 else if r < 0.0 then -1 else 0
    case NaN => 0
    case PosInf => 1
    case NegInf => -1
  }

  function Mul(x: Num, y: Num): Num {
    if x.Fin? && y.Fin? then Fin(x.r * y.r)
    else
      var s := Sign(x) * Sign(y);
      if s > 0 then PosInf else if s < 0 then NegInf else NaN
  }

  /** The C++ `<`: false as soon as one side is NaN. */
  predicate Less(x: Num, y: Num) {
    match (x, y)
    case (NaN, _) => false
    case (_, NaN) => false
    case (Fin(a), Fin(b)) => a < b
    case _ => x != y && (x.NegInf? || y.PosInf?)
  }

  /** The C++ `==`: NaN differs from itself. */
  predicate Same(x: Num, y: Num) { !x.NaN? && x == y }

  function Abs(x: Num): Num {
    if Less(x, ZERO) then Neg(x) else x
  }

  /** std::copysign for a sign argument that is a number. */
  function CopySign(magnitude: Num, sign: Num): Num {
    if Less(sign, ZERO) then Neg(Abs(magnitude)) else Abs(magnitude)
  }

  // ---- float conversion and units ----

  const FLT_MAX: real := 340282346638528859811704183484516925440.0
  const PI: real := 3.141592653589793238462643383279502884
  const TURNS_TO_RADIANS: real := 2.0 * PI
  const RADIANS_TO_TURNS: real := 1.0 / (2.0 * PI)

  function RadiansToTurns(x: Num): Num { Mul(x, Fin(RADIANS_TO_TURNS)) }

  function TurnsToRadians(x: Num): Num { Mul(x, Fin(TURNS_TO_RADIANS)) }

  predicate FloatRange(x: Num) { x.Fin? && -FLT_MAX <= x.r <= FLT_MAX }

  /** std::clamp to the float range; a NaN passes through, as both comparisons fail. */
  function Saturate(x: Num): (s: Num)
    ensures FloatRange(s) <==> !x.NaN?
    ensures FloatRange(x) ==> s == x
    ensures !x.NaN? && !FloatRange(x) ==> s == if Less(ZERO, x) then Fin(FLT_MAX) else Fin(-FLT_MAX)
  {
    if Less(x, Fin(-FLT_MAX)) then Fin(-FLT_MAX)
    else if Less(Fin(FLT_MAX), x) then Fin(FLT_MAX)
    else x
  }

  lemma UnitRoundTrip(x: Num)
    ensures RadiansToTurns(TurnsToRadians(x)) == x
  {
    match x
    case Fin(r) =>
      assert r * TURNS_TO_RADIANS * RADIANS_TO_TURNS == r * (TURNS_TO_RADIANS * RADIANS_TO_TURNS);
      assert TURNS_TO_RADIANS * RADIANS_TO_TURNS == 1.0;
    case _ =>
  }

  // ---- fixed-width integers ----

  function ToInt16(n: int): (r: int)
    ensures -0x8000 <= r < 0x8000 && (r - n) % 0x1_0000 == 0
    ensures -0x8000 <= n < 0x8000 ==> r == n
  { (n + 0x8000) % 0x1_0000 - 0x8000 }

  function ToInt32(n: int): (r: int)
    ensures -0x8000_0000 <= r < 0x8000_0000
    ensures -0x8000_0000 <= n < 0x8000_0000 ==> r == n
  { (n + 0x8000_0000) % 0x1_0000_0000 - 0x8000_0000 }

  function ToUint32(n: int): (r: int)
    ensures 0 <= r < 0x1_0000_0000
  { n % 0x1_0000_0000 }
}
