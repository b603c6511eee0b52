/** Reading a key of a JavaScript object literal used as a table
    (`table[key]`). A key the literal does not define is still found when it
    names a member every object inherits from `Object.prototype`. */
module JsLookup {
  import opened Wrappers

  /** The members every object literal inherits from `Object.prototype`;
      none of them is `undefined` or `null`. */
  const InheritedNames: set<string> := {
    "constructor", "hasOwnProperty", "isPrototypeOf", "propertyIsEnumerable",
    "toLocaleString", "toString", "valueOf", "__proto__",
    "__defineGetter__", "__defineSetter__", "__lookupGetter__", "__lookupSetter__"
  }

  /** What `table[key]` yields. */
  datatype Lookup<V> = Own(value: V) | Inherited(name: string) | Undefined

  /** `table[key]` as JavaScript evaluates it. */
  function LookupAsWritten<V>(table: map<string, V>, key: string): (r: Lookup<V>)
    ensures r.Own? <==> key in table
    ensures r.Inherited? <==> key !in table && key in InheritedNames
  {
    if key in table then Own(table[key])
    else if key in InheritedNames then Inherited(key)
    else Undefined
  }

  /** A lookup of the table's own keys only: what a table is meant to give. */
  function LookupOwn<V>(table: map<string, V>, key: string): (r: Option<V>)
    ensures r.Some? <==> key in table
    ensures r.Some? ==> r.value == table[key]
  {
    if key in table then Some(table[key]) else None
  }

  /** The two lookups differ only on inherited names the table does not
      define. */
  lemma LookupsAgree<V>(table: map<string, V>, key: string)
    requires key !in InheritedNames || key in table
    ensures LookupAsWritten(table, key) == (if key in table then Own(table[key]) else Undefined)
    ensures LookupOwn(table, key).Some? <==> LookupAsWritten(table, key).Own?
  {
  }
}
