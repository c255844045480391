/** The `LUTType` enumeration of src/LUT_utils.h and its printable names.  An
    enumerator is its C++ number; the name function takes any number, because
    callers cast a command-line integer to `LUTType`. */
module LutTypes {
  const RANDOM: int := 0
  const GAMMA: int := 1
  const CAUCHY_DIS: int := 2
  const FILLED: int := 3
  /** One past the last table type: the count of valid types. */
  const NUM_LUT_TYPES: int := 4

  predicate IsLutType(t: int)
  {
    0 <= t < NUM_LUT_TYPES
  }

  /** `lut_type_to_string`: each valid type has its own name and every other
      number, `NumLUTTypes` included, is `"Invalid"`. */
  function LutTypeToString(t: int): (name: string)
    ensures name == "Random" <==> t == RANDOM
    ensures name == "Gamma" <==> t == GAMMA
    ensures name == "Cauchy_dis" <==> t == CAUCHY_DIS
    ensures name == "Filled" <==> t == FILLED
    ensures name == "Invalid" <==> !IsLutType(t)
  {
    if t == RANDOM then "Random"
    else if t == GAMMA then "Gamma"
    else if t == CAUCHY_DIS then "Cauchy_dis"
    else if t == FILLED then "Filled"
    else "Invalid"
  }

  /** The four valid types have pairwise distinct names, none of them
      `"Invalid"`. */
  lemma NamesDistinct(a: int, b: int)
    requires IsLutType(a) && IsLutType(b) && a != b
    ensures LutTypeToString(a) != LutTypeToString(b)
    ensures LutTypeToString(a) != "Invalid"
  {
  }
}
