/** Props records as the comparator and the memo wrapper see them: flat maps from
    property names to JavaScript values, where only strict equality (`===`) matters. */
module Values {

  datatype Option<+T> = None | Some(value: T)

  /** The primitive values a prop can hold (numbers are restricted to integers). */
  datatype Prim = Int(i: int) | Str(s: string) | Bool(b: bool)

  /** A JavaScript value as `===` sees it: primitives compare by value, objects,
      arrays and functions by the identity `id` of the referenced object. */
  datatype Value = Undefined | Null | Prim(p: Prim) | Ref(id: nat)

  /** A props object: its own enumerable keys and their values. A key may be
      present with the value `undefined`. */
  type Record = map<string, Value>

  /** The model's reading of `obj[key]`: an absent key reads as `undefined`.
      Properties inherited from the prototype are not part of a record. */
  function Get(r: Record, key: string): (v: Value)
    ensures v != Undefined ==> key in r && r[key] == v
  {
    if key in r then r[key] else Undefined
  }

  /** No key of `r` is explicitly bound to `undefined`. */
  predicate NoUndefined(r: Record) {
    forall key :: key in r ==> r[key] != Undefined
  }
}
