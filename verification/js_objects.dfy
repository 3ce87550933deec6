/**
 * Property lookup on a JavaScript object literal used as a lookup table
 * (`Record<string, V>`). Such a literal inherits the members of
 * `Object.prototype`, so `table[key]` is truthy for some keys the literal
 * never lists. The model's lookups always use lower-cased keys; the only
 * inherited member names that are entirely lower-case are the two below.
 */
module JsObjects {
  import opened Strings

  const InheritedLowerCaseKeys: set<string> := {"constructor", "__proto__"}

  /** What `table[key]` evaluates to. */
  datatype PropertyValue<V> = Own(value: V) | InheritedMember(key: string) | Undefined

  function GetProperty<V>(table: map<string, V>, key: string): (r: PropertyValue<V>)
    requires ToLower(key) == key
    ensures r.Own? <==> key in table
    ensures r.Own? ==> r.value == table[key]
    ensures r.InheritedMember? <==> key !in table && key in InheritedLowerCaseKeys
  {
    if key in table then Own(table[key])
    else if key in InheritedLowerCaseKeys then InheritedMember(key)
    else Undefined
  }

  lemma InheritedKeysNonEmpty()
    ensures forall k :: k in InheritedLowerCaseKeys ==> |k| > 0
  {
  }
}
