/** Property lookup on a JavaScript object literal, as the add-in's colour
    tables do it: an own property first, then `Object.prototype`. */
module JsObject {
  import opened Text

  /** The property names every object literal inherits from
      `Object.prototype`. Reading one of them from a literal that does not
      define it gives a function, or for `__proto__` the prototype object:
      a truthy value that is not a string. */
  const PrototypeNames: set<string> := {
    "constructor", "hasOwnProperty", "isPrototypeOf", "propertyIsEnumerable",
    "toLocaleString", "toString", "valueOf", "__proto__",
    "__defineGetter__", "__defineSetter__", "__lookupGetter__", "__lookupSetter__"}

  /** What `table[key]` reads from an object literal of strings: an own
      string, or the inherited member of that name. */
  datatype Property = Own(value: string) | Inherited(name: string)

  /** `table[key] || fallback` on an object literal: an own property wins,
      an empty string falls back, and a name the literal does not define is
      looked up on `Object.prototype` before falling back. */
  function LookupOr(table: map<string, string>, key: string, fallback: string): (r: Property)
    ensures r.Inherited? <==> key !in table && key in PrototypeNames
    ensures r.Inherited? ==> r.name == key
    ensures key in table && table[key] != "" ==> r == Own(table[key])
    ensures (key !in table && key !in PrototypeNames) || (key in table && table[key] == "") ==> r == Own(fallback)
  {
    if key in table then Own(if table[key] != "" then table[key] else fallback)
    else if key in PrototypeNames then Inherited(key)
    else Own(fallback)
  }

  /** A text without capital letters names an inherited property only when
      it is "constructor" or "__proto__". */
  lemma LowerInPrototype(l: string)
    requires forall k :: 0 <= k < |l| ==> !IsUpperAscii(l[k])
    ensures l in PrototypeNames <==> l == "constructor" || l == "__proto__"
  {
    // every other inherited name has a capital at index 2, 3, 5 or 8
    if |l| > 8 { assert !IsUpperAscii(l[8]); }
    if |l| > 5 { assert !IsUpperAscii(l[5]); }
    if |l| > 3 { assert !IsUpperAscii(l[3]); }
    if |l| > 2 { assert !IsUpperAscii(l[2]); }
  }
}
