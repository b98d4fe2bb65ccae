/**
 * The JavaScript values that reach the pages' coercions: `String(v)`, template-literal
 * interpolation and truthiness (`v || default`, `if (v)`). Numbers are integers here;
 * objects other than arrays do not occur in the fields the pages coerce.
 */
module Js {
  import opened Wrappers
  import opened Text

  datatype JsValue =
    | Undefined
    | Null
    | Bool(b: bool)
    | Num(n: int)
    | Str(s: string)
    | Arr(items: seq<JsValue>)

  /**
   * `String(v)`, which is also what `${v}` produces. An array becomes its elements joined
   * with ',', where a null or undefined element contributes the empty string.
   */
  function ToJsString(v: JsValue): string
    decreases v
  {
    match v
    case Undefined => "undefined"
    case Null => "null"
    case Bool(b) => if b then "true" else "false"
    case Num(n) => IntToString(n)
    case Str(s) => s
    case Arr(items) => Join(ElementStrings(items), ",")
  }

  /** How `Array.prototype.join` renders each element: null and undefined as "". */
  function ElementStrings(items: seq<JsValue>): (r: seq<string>)
    ensures |r| == |items|
    ensures forall k :: 0 <= k < |items| && (items[k].Undefined? || items[k].Null?) ==> r[k] == ""
    ensures forall k :: 0 <= k < |items| && !items[k].Undefined? && !items[k].Null? ==> r[k] == ToJsString(items[k])
    decreases items
  {
    if |items| == 0 then []
    else
      var first := if items[0].Undefined? || items[0].Null? then "" else ToJsString(items[0]);
      [first] + ElementStrings(items[1..])
  }

  /** JavaScript truthiness: false, 0, "", null and undefined are falsy; arrays never are. */
  predicate Truthy(v: JsValue) {
    match v
    case Undefined => false
    case Null => false
    case Bool(b) => b
    case Num(n) => n != 0
    case Str(s) => s != ""
    case Arr(_) => true
  }

  /** `String(v)` of an integer pair is the two numbers with one comma between them. */
  lemma PairToString(a: int, b: int)
    ensures ToJsString(Arr([Num(a), Num(b)])) == IntToString(a) + "," + IntToString(b)
  {
    assert [Num(a), Num(b)][1..] == [Num(b)];
    assert ElementStrings([Num(b)]) == [IntToString(b)] + ElementStrings([]);
    assert ElementStrings([Num(a), Num(b)]) == [IntToString(a)] + ElementStrings([Num(b)]);
    assert [IntToString(a), IntToString(b)][1..] == [IntToString(b)];
    assert Join([IntToString(a), IntToString(b)], ",") == IntToString(a) + "," + Join([IntToString(b)], ",");
    assert ToJsString(Arr([Num(a), Num(b)])) == Join(ElementStrings([Num(a), Num(b)]), ",");
  }

  /** An `<option>` of a `<select>`: its text and its `value` attribute, if it has one. */
  datatype SelectOption = SelectOption(text: string, valueAttr: Option<string>)

  /** The HTML rule: an option without a `value` attribute has its text as its value. */
  function OptionValue(o: SelectOption): string {
    o.valueAttr.GetOr(o.text)
  }

  /** A plain object from the server, as its own enumerable properties. */
  type Record = map<string, JsValue>

  /** `item[key]`: reading a key the object lacks gives `undefined`. */
  function Lookup(item: Record, key: string): JsValue {
    if key in item then item[key] else Undefined
  }
}
