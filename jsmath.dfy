/** The JavaScript `Math` functions the geometry relies on. Their numeric values are not
    modelled: a `MathLib` is any choice of them, passed to every computation that needs one,
    and `Lawful` names the few facts about them that the proofs use. */
module JsMath {

  datatype MathLib = MathLib(
    sqrt: real -> real,
    sin: real -> real,
    cos: real -> real,
    atan2: (real, real) -> real,
    pi: real)
  {
    /** The laws of the real functions that the measurement properties depend on. */
    ghost predicate Lawful() {
      && sqrt(0.0) == 0.0
      && sqrt(1.0) == 1.0
      // Math.sqrt never returns a negative number (NaN, for a negative argument, is not modelled)
      && (forall x :: 0.0 <= sqrt(x))
      && sin(0.0) == 0.0
      && (forall x :: sin(-x) == -sin(x))
      && (forall x :: 0.0 < x ==> atan2(0.0, x) == 0.0)
      && (forall y, x :: 0.0 <= y ==> 0.0 <= atan2(y, x))
      && 0.0 < pi
    }

    /** Math.sqrt */
    function Sqrt(x: real): real { sqrt(x) }
    /** Math.sin */
    function Sin(x: real): real { sin(x) }
    /** Math.cos */
    function Cos(x: real): real { cos(x) }
    /** Math.atan2 */
    function Atan2(y: real, x: real): real { atan2(y, x) }
  }

  /** Math.abs */
  function Abs(x: real): (r: real)
    ensures 0.0 <= r
    ensures r == x || r == -x
  {
    if x < 0.0 then -x else x
  }

  /** Math.max(0, Math.min(v, hi)), the clamp used for clicks on an image. */
  function Clamp(v: real, hi: real): (r: real)
    ensures 0.0 <= hi ==> 0.0 <= r <= hi
    ensures 0.0 <= v <= hi ==> r == v
    ensures v < 0.0 ==> r == 0.0
    ensures 0.0 <= hi < v ==> r == hi
  {
    var m := if v < hi then v else hi;
    if m < 0.0 then 0.0 else m
  }
}
