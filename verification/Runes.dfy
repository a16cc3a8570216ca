/** Strings as a range loop sees them: runes, each with the bytes it takes. */
module Runes {
  datatype Rune = Rune(code: nat, width: nat)

  type Text = seq<Rune>

  predicate WellFormed(t: Text) {
    forall k :: 0 <= k < |t| ==> 1 <= t[k].width <= 4
  }

  /** The length in bytes. */
  function Length(t: Text): (n: nat) {
    if t == [] then 0 else Length(t[..|t| - 1]) + t[|t| - 1].width
  }
}
