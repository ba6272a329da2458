/** The JSON values the corpus and the request body are made of, and the
    JavaScript conversions the pipeline applies to them. */
module JsValues {
  import opened Wrappers
  import opened Text

  /** A value `JSON.parse` can produce. Numbers are reals: numerals too
      large for a double, which parse to Infinity, are excluded. */
  datatype Value =
    | Null
    | Bool(b: bool)
    | Num(n: real)
    | Str(s: string)
    | Arr(items: seq<Value>)
    | Obj(fields: seq<Field>)

  /** One own property of an object. */
  datatype Field = Field(key: string, value: Value)

  /** An object's own properties in the order `Object.entries` lists them
      (integer-like keys ascending first, then the others in insertion order).
      Objects built by `JSON.parse` have distinct keys. */
  type Object = seq<Field>

  /** Library behaviour the model treats as opaque: `JSON.stringify` and the
      rendering of a number as text (section 6.1.6.1.20 of ECMA-262). */
  datatype Host = Host(stringify: Value -> string, numberToString: real -> string)

  /** JavaScript truthiness (ToBoolean, section 7.1.2 of ECMA-262). */
  predicate Truthy(v: Value) {
    match v
    case Null => false
    case Bool(b) => b
    case Num(n) => n != 0.0
    case Str(s) => s != ""
    case Arr(_) => true
    case Obj(_) => true
  }

  /** Truthiness of a property read, where a missing property reads as
      `undefined`, which is falsy. */
  predicate TruthyProp(p: Option<Value>) {
    p.Some? && Truthy(p.value)
  }

  /** `a || b` on two property reads: the first when truthy, else the second. */
  function Or(a: Option<Value>, b: Option<Value>): (r: Option<Value>)
    ensures TruthyProp(a) ==> r == a
    ensures !TruthyProp(a) ==> r == b
  {
    if TruthyProp(a) then a else b
  }

  /** Property read `o[key]`: the value of the first property named `key`,
      or `None` (`undefined`) when there is none. */
  function Get(o: Object, key: string): (r: Option<Value>)
    ensures r.None? <==> forall i :: 0 <= i < |o| ==> o[i].key != key
    ensures r.Some? ==> exists i :: 0 <= i < |o| && o[i] == Field(key, r.value)
  {
    if |o| == 0 then None
    else if o[0].key == key then Some(o[0].value)
    else Get(o[1..], key)
  }

  /** ToString (section 7.1.17 of ECMA-262) of a JSON value; this is also
      what a template literal `${v}` inserts. Arrays convert through
      `join(",")`, plain objects to "[object Object]". */
  function ToString(h: Host, v: Value): string
    decreases v
  {
    match v
    case Null => "null"
    case Bool(b) => if b then "true" else "false"
    case Num(n) => h.numberToString(n)
    case Str(s) => s
    case Arr(items) => Join(ElementTexts(h, items), ",")
    case Obj(_) => "[object Object]"
  }

  /** How `Array.prototype.join` converts each element: `null` becomes the
      empty string, everything else goes through ToString. */
  function ElementTexts(h: Host, items: seq<Value>): (r: seq<string>)
    decreases items
    ensures |r| == |items|
  {
    seq(|items|, i requires 0 <= i < |items| => if items[i].Null? then "" else ToString(h, items[i]))
  }

  /** `items.join(sep)` on an array of JSON values. */
  function ArrayJoin(h: Host, items: seq<Value>, sep: string): string {
    Join(ElementTexts(h, items), sep)
  }

  /** The text a template literal inserts for a property read: "undefined"
      when the property is missing. */
  function TemplateText(h: Host, p: Option<Value>): string {
    match p
    case None => "undefined"
    case Some(v) => ToString(h, v)
  }

  /** When every element is a string, joining the array is joining those
      strings: no element is altered on the way. */
  lemma ArrayJoinOfStrings(h: Host, items: seq<Value>, sep: string)
    requires forall i :: 0 <= i < |items| ==> items[i].Str?
    ensures ArrayJoin(h, items, sep) == Join(seq(|items|, i requires 0 <= i < |items| => items[i].s), sep)
  {
    assert ElementTexts(h, items) == seq(|items|, i requires 0 <= i < |items| => items[i].s);
  }
}
