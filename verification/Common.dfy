/** Optional values, standing for SQL NULL, Python None and absent entries, and decoded Python objects. */
module Common {

  datatype Option<+T> = None | Some(value: T) {
    function GetOr(default: T): T {
      if None? then default else value
    }
  }

  /** A decoded Python object, as far as the modelled code tells objects apart; Nothing is the None that
      dict.get answers for a missing key. */
  datatype Value =
    | Nothing
    | Text(text: string)
    | Integer(number: int)
    | Boolean(truth: bool)
    | Dict(entries: map<string, Value>)
    | OtherValue(shown: string)
  {
    function Get(key: string): Value {
      if Dict? && key in entries then entries[key] else Nothing
    }
  }
}
