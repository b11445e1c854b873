/**
 * The JavaScript values that travel over the channel and make up the
 * application object graph, with JavaScript truthiness, property access
 * and string conversion.
 */
module JsValues {
  import opened Wrappers
  import opened Text

  /** A plain-data JavaScript value. Objects are trees of named fields;
      numbers are the integer ones. */
  datatype Value =
    | Undefined
    | Null
    | Bool(b: bool)
    | Num(n: int)
    | Str(s: string)
    | Arr(items: seq<Value>)
    | Obj(fields: map<string, Value>)

  /** JavaScript truthiness: undefined, null, false, 0 and "" are falsy. */
  predicate Truthy(v: Value) {
    match v
    case Undefined => false
    case Null => false
    case Bool(b) => b
    case Num(n) => n != 0
    case Str(s) => s != ""
    case Arr(_) => true
    case Obj(_) => true
  }

  /** Reading a property of these throws a TypeError. */
  predicate Nullish(v: Value) {
    v.Undefined? || v.Null?
  }

  /** A canonical array index: decimal digits without a leading zero. */
  function ArrayIndex(name: string): Option<nat> {
    if name != [] && AllDigits(name) && (name[0] != '0' || name == "0")
    then Some(DigitsValue(name))
    else None
  }

  /** The rendering of every index is read back as that index. */
  lemma ArrayIndexOfIndex(i: nat)
    ensures ArrayIndex(NatToString(i)) == Some(i)
  {
    NatToStringRoundTrip(i);
  }

  /** `v[name]` for a value that is neither undefined nor null: an own field
      of an object, `length` or an element of an array or a string, and
      undefined for anything absent. */
  function Get(v: Value, name: string): Value
    requires !Nullish(v)
  {
    match v
    case Obj(fields) => if name in fields then fields[name] else Undefined
    case Arr(items) =>
      if name == "length" then Num(|items|)
      else (match ArrayIndex(name)
            case Some(i) => if i < |items| then items[i] else Undefined
            case None => Undefined)
    case Str(s) =>
      if name == "length" then Num(|s|)
      else (match ArrayIndex(name)
            case Some(i) => if i < |s| then Str([s[i]]) else Undefined
            case None => Undefined)
    case _ => Undefined
  }

  /** The own field `name` of an object; undefined for anything else. */
  function OwnField(v: Value, name: string): Value {
    if v.Obj? && name in v.fields then v.fields[name] else Undefined
  }

  /** A name that is neither `length` nor a canonical array index is read
      from an object's own fields and from nothing else. */
  lemma GetNamedField(v: Value, name: string)
    requires !Nullish(v)
    requires name != "length" && ArrayIndex(name).None?
    ensures Get(v, name) == OwnField(v, name)
  {
  }

  /** Indexing an array by the rendering of an in-range index gives that element. */
  lemma GetElement(items: seq<Value>, i: nat)
    requires i < |items|
    ensures Get(Arr(items), NatToString(i)) == items[i]
  {
    ArrayIndexOfIndex(i);
    assert !AllDigits("length") by {
      assert !IsDigit("length"[5]);
    }
  }

  /** String conversion, as a template literal performs it. */
  function ToString(v: Value): string
    decreases v
  {
    match v
    case Undefined => "undefined"
    case Null => "null"
    case Bool(b) => if b then "true" else "false"
    case Num(n) => if n < 0 then "-" + NatToString(-n) else NatToString(n)
    case Str(s) => s
    case Arr(items) =>
      if items == [] then ""
      else Join(seq(|items|, i requires 0 <= i < |items| =>
                      if Nullish(items[i]) then "" else ToString(items[i])), ',')
    case Obj(_) => "[object Object]"
  }

  /** A number is written in decimal, with a minus sign when negative, and
      the digits read back as its magnitude. */
  lemma ToStringOfNumber(n: int)
    ensures n >= 0 ==> AllDigits(ToString(Num(n))) && DigitsValue(ToString(Num(n))) == n
    ensures n < 0 ==>
      |ToString(Num(n))| >= 2 && ToString(Num(n))[0] == '-'
      && AllDigits(ToString(Num(n))[1..]) && DigitsValue(ToString(Num(n))[1..]) == -n
  {
    var m := if n >= 0 then n else -n;
    NatToStringRoundTrip(m);
    if n < 0 {
      assert ToString(Num(n))[1..] == NatToString(m);
    }
  }
}
