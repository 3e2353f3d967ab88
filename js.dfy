/**
 * The JavaScript values the core receives and returns, and the language
 * behaviour it leans on: truthiness, `typeof`, `String(v)`, `v.toString()`,
 * `Number(text)` and the own enumerable properties a `for…in` loop visits.
 */
module Js {
  import opened Wrappers
  import opened Text

  /**
   * A JavaScript value. Numbers are integers plus NaN; an object is the
   * sequence of its own enumerable properties in `for…in` order.
   */
  datatype Value =
    | Undefined
    | Null
    | Bool(b: bool)
    | Num(n: int)
    | NaN
    | Str(s: string)
    | Arr(items: seq<Value>)
    | Obj(fields: seq<(string, Value)>)

  /** The errors the core throws, and the TypeErrors the JavaScript engine raises inside it. */
  datatype Error =
    | InvalidOperator(op: string, key: string)
    | InRequiresArray(key: string)
    | BetweenRequiresPair(key: string)
    | NotAnArray(key: string)
    | NoToString

  /** The message of a thrown Error; for the engine's TypeErrors, a description of what failed. */
  function Message(e: Error): string
  {
    match e
    case InvalidOperator(op, key) => "Invalid operator " + op + " for key " + key
    case InRequiresArray(key) => "IN statement for key " + key + " does not have an Array value"
    case BetweenRequiresPair(key) => "BETWEEN statement for key " + key + " requires two values in an array"
    case NotAnArray(key) => "the " + key + " value has no forEach: it is not an array"
    case NoToString => "Cannot read properties of null or undefined (reading 'toString')"
  }

  /** JavaScript truthiness: "", 0, NaN, false, null and undefined are falsy. */
  predicate Truthy(v: Value)
  {
    match v
    case Undefined => false
    case Null => false
    case Bool(b) => b
    case Num(n) => n != 0
    case NaN => false
    case Str(s) => s != ""
    case Arr(_) => true
    case Obj(_) => true
  }

  /** `typeof v`. */
  function TypeOf(v: Value): string
  {
    match v
    case Undefined => "undefined"
    case Null => "object"
    case Bool(_) => "boolean"
    case Num(_) => "number"
    case NaN => "number"
    case Str(_) => "string"
    case Arr(_) => "object"
    case Obj(_) => "object"
  }

  /** `typeof v === 'object'`: null, arrays and plain objects. */
  predicate IsObjectType(v: Value)
  {
    v.Null? || v.Arr? || v.Obj?
  }

  /** `String(v)`, which is also the property key `v` names in `table[v]`. */
  function StringOf(v: Value): string
  {
    match v
    case Undefined => "undefined"
    case Null => "null"
    case Bool(b) => if b then "true" else "false"
    case Num(n) => IntText(n)
    case NaN => "NaN"
    case Str(s) => s
    case Arr(items) => JoinedText(items)
    case Obj(_) => "[object Object]"
  }

  /** `items.join(',')`: null and undefined elements contribute the empty string. */
  function JoinedText(items: seq<Value>): string
  {
    if |items| == 0 then ""
    else
      var first := if items[0].Null? || items[0].Undefined? then "" else StringOf(items[0]);
      if |items| == 1 then first else first + "," + JoinedText(items[1..])
  }

  /** `v.toString()`: throws on null and undefined, otherwise `String(v)`. */
  function ToText(v: Value): (r: Result<string, Error>)
    ensures r.Err? <==> v.Null? || v.Undefined?
    ensures r.Ok? ==> r.value == StringOf(v)
  {
    if v.Null? || v.Undefined? then Err(NoToString) else Ok(StringOf(v))
  }

  /**
   * `Number(text)` on integer syntax only: "" is 0, an optional '-' followed by
   * decimal digits is that integer, and every other text is NaN. JavaScript
   * reads more texts as numbers than this (see README, "Left out").
   */
  function NumberOf(text: string): (v: Value)
    ensures v.Num? || v.NaN?
  {
    if text == "" then Num(0)
    else if AllDigits(text) then Num(DigitsValue(text))
    else if text[0] == '-' && |text| > 1 && AllDigits(text[1..]) then Num(-(DigitsValue(text[1..]) as int))
    else NaN
  }

  /** Number(n.toString()) == n: the decimal text of an integer reads back as that integer. */
  lemma NumberOfIntText(n: int)
    ensures NumberOf(IntText(n)) == Num(n)
  {
    if n < 0 {
      NatTextReadsBack(-n);
      var t := IntText(n);
      assert t[1..] == NatText(-n);
      assert !IsDigit(t[0]);
    } else {
      NatTextReadsBack(n);
    }
  }

  /** The own enumerable properties of v, in the order `for (key in v)` visits them. */
  function OwnEntries(v: Value): seq<(string, Value)>
  {
    match v
    case Obj(fields) => fields
    case Arr(items) => IndexEntries(items, 0)
    case Str(s) => CharEntries(s, 0)
    case _ => []
  }

  /** The index properties "start", "start+1", … of an array's elements. */
  function IndexEntries(items: seq<Value>, start: nat): (es: seq<(string, Value)>)
    ensures |es| == |items|
  {
    if items == [] then [] else [(NatText(start), items[0])] + IndexEntries(items[1..], start + 1)
  }

  /** The index properties of a string primitive: each index names a one-character string (one Dafny char, see README, "Left out"). */
  function CharEntries(s: string, start: nat): (es: seq<(string, Value)>)
    ensures |es| == |s|
  {
    if s == [] then [] else [(NatText(start), Str([s[0]]))] + CharEntries(s[1..], start + 1)
  }

  // ----- A size measure, for the termination of the recursive walks over values -----

  function Size(v: Value): nat
  {
    match v
    case Arr(items) => 1 + SizeOfItems(items)
    case Obj(fields) => 1 + SizeOfFields(fields)
    case _ => 1
  }

  function SizeOfItems(items: seq<Value>): nat
  {
    if items == [] then 0 else Size(items[0]) + SizeOfItems(items[1..])
  }

  function SizeOfFields(fields: seq<(string, Value)>): nat
  {
    if fields == [] then 0
    else
      var first := fields[0];
      assert first.1 < first;
      Size(first.1) + SizeOfFields(fields[1..])
  }

  /** The keys the condition compiler treats specially instead of as attribute names. */
  predicate IsSpecialKey(key: string)
  {
    key == "AND" || key == "OR" || key == "NOT"
  }

  /**
   * The weight of one property: its size, plus one when a walk may recurse into it
   * (a special condition key, or an object-typed value the encoder descends into).
   */
  function Weight(e: (string, Value)): nat
  {
    Size(e.1) + (if IsSpecialKey(e.0) || IsObjectType(e.1) then 1 else 0)
  }

  function MaxWeight(es: seq<(string, Value)>): nat
  {
    if es == [] then 0
    else if Weight(es[0]) >= MaxWeight(es[1..]) then Weight(es[0])
    else MaxWeight(es[1..])
  }

  /** A decimal index never reads as AND, OR or NOT. */
  lemma IndexKeyNotSpecial(n: nat)
    ensures !IsSpecialKey(NatText(n))
  {
    NatTextReadsBack(n);
    assert IsDigit(NatText(n)[0]);
  }

  lemma {:induction false} ItemEntriesWeight(items: seq<Value>, start: nat)
    ensures MaxWeight(IndexEntries(items, start)) <= 1 + SizeOfItems(items)
  {
    if items != [] {
      ItemEntriesWeight(items[1..], start + 1);
      assert IndexEntries(items, start)[1..] == IndexEntries(items[1..], start + 1);
    }
  }

  lemma {:induction false} CharEntriesWeight(s: string, start: nat)
    ensures MaxWeight(CharEntries(s, start)) <= 1
  {
    if s != [] {
      IndexKeyNotSpecial(start);
      CharEntriesWeight(s[1..], start + 1);
      assert CharEntries(s, start)[1..] == CharEntries(s[1..], start + 1);
    }
  }

  lemma {:induction false} FieldsWeight(fields: seq<(string, Value)>)
    ensures MaxWeight(fields) <= 1 + SizeOfFields(fields)
  {
    if fields != [] {
      FieldsWeight(fields[1..]);
    }
  }

  /** Every property a `for…in` over v visits weighs no more than v itself. */
  lemma OwnEntriesWeight(v: Value)
    ensures MaxWeight(OwnEntries(v)) <= Size(v)
  {
    match v
    case Obj(fields) => FieldsWeight(fields);
    case Arr(items) => ItemEntriesWeight(items, 0);
    case Str(s) => CharEntriesWeight(s, 0);
    case _ =>
  }

  lemma {:induction false} MaxWeightAt(es: seq<(string, Value)>, j: nat)
    requires j < |es|
    ensures Weight(es[j]) <= MaxWeight(es)
  {
    if j > 0 {
      MaxWeightAt(es[1..], j - 1);
    }
  }

  lemma {:induction false} SizeOfItemsAt(items: seq<Value>, i: nat)
    requires i < |items|
    ensures Size(items[i]) <= SizeOfItems(items)
  {
    if i > 0 {
      SizeOfItemsAt(items[1..], i - 1);
    }
  }
}
