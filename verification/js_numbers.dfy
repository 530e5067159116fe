/** JavaScript numbers as far as the validators look at them, and the coercion of a
    string to a number (`Number(s)`, which `isNaN(s)` and `s < 0` apply implicitly). */
module JsNumbers {
  import opened Text

  /** A JavaScript number value; -0 is Finite(0.0). */
  datatype JsNumber = NaN | Finite(value: real) | PosInfinity | NegInfinity

  /** `x < c` for a finite constant `c`: false whenever `x` is NaN. */
  predicate LessThan(x: JsNumber, c: real) {
    match x
    case NaN => false
    case Finite(v) => v < c
    case PosInfinity => false
    case NegInfinity => true
  }

  /** `x > c` for a finite constant `c`: false whenever `x` is NaN. */
  predicate GreaterThan(x: JsNumber, c: real) {
    match x
    case NaN => false
    case Finite(v) => v > c
    case PosInfinity => true
    case NegInfinity => false
  }

  /** The rating test written in both script.js and index.js:
      `isNaN(x) || x < 0 || x > 5` is false. */
  predicate RatingInRange(x: JsNumber) {
    !(x.NaN? || LessThan(x, 0.0) || GreaterThan(x, 5.0))
  }

  /** The finite numbers of the closed interval [0, 5]. */
  predicate WithinZeroToFive(x: JsNumber) {
    x.Finite? && 0.0 <= x.value <= 5.0
  }

  /** The rating test accepts exactly the finite numbers of the closed interval [0, 5]:
      NaN and both infinities are refused, and the end points 0 and 5 are accepted. */
  lemma RatingInRangeExactly(x: JsNumber)
    ensures RatingInRange(x) <==> WithinZeroToFive(x)
  {
  }

  /** `Number(s)` for a string. A string that is empty or only whitespace converts to 0;
      any other string is trimmed and read as a numeric literal by `numeral`, which stands
      for ECMAScript's StringNumericLiteral grammar (decimal, hexadecimal, octal, binary,
      `Infinity`) and yields NaN when the text is not such a literal. */
  function ToNumber(s: string, numeral: string -> JsNumber): JsNumber {
    var t := Trim(s);
    if t == [] then Finite(0.0) else numeral(t)
  }

  /** Whatever the literal grammar says, a blank string converts to the number 0 and
      therefore is not NaN and lies inside [0, 5]. */
  lemma BlankIsZero(s: string, numeral: string -> JsNumber)
    requires forall k :: 0 <= k < |s| ==> IsSpace(s[k])
    ensures ToNumber(s, numeral) == Finite(0.0)
    ensures RatingInRange(ToNumber(s, numeral))
  {
    var i, j := TrimIsSlice(s);
  }
}
