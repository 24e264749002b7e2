/**
 * The JavaScript values the modals keep in React state. Text typed into a control arrives as a string;
 * what `Number()` makes of that string is floating-point parsing, which is not modelled: an `Input`
 * carries the text together with its numeric reading (`None` for NaN).
 */
module Js {
  import opened Wrappers
  import opened Text

  datatype Input = Input(text: string, number: Option<real>)

  /** The strings the ask-price field accepts literally while the user is still typing. */
  const ZeroLiterals: set<string> := {"", "0", "0.", "0.0"}

  /** `Number()` reads every string of `ZeroLiterals` as 0. */
  predicate ReadsZeroLiterals(i: Input) {
    i.text in ZeroLiterals ==> i.number == Some(0.0)
  }

  /** A state value: the numeric initial value a `useState` was given, or the string an edit stored. */
  datatype Value = Num(n: nat) | Str(input: Input)

  /** `String(v)` */
  function ToJsString(v: Value): string {
    match v
    case Num(n) => NatToDecimal(n)
    case Str(i) => i.text
  }

  /** `v <= 0`: a string operand is converted with `Number()`, and NaN compares false. */
  predicate AtMostZero(v: Value) {
    match v
    case Num(n) => n == 0
    case Str(i) => i.number.Some? && i.number.value <= 0.0
  }

  /** `v === 0`: a string is never strictly equal to a number. */
  predicate StrictlyZero(v: Value) {
    v.Num? && v.n == 0
  }

  /** Truthiness of a nullable string: `null` and `""` are falsy. */
  predicate TruthyString(s: Option<string>) {
    s.Some? && s.value != ""
  }

  /** `String(v)` is empty exactly for an edit that left the field empty. */
  lemma EmptyStringFormOnlyFromEmptyEdit(v: Value)
    ensures |ToJsString(v)| == 0 <==> v.Str? && v.input.text == ""
  {
  }
}
