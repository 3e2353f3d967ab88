/**
 * The value marshaller: mapJavascriptObjectToDynamoObject (encode) and
 * mapDynamoObjectToJavascriptObject (decode) between JavaScript values and
 * DynamoDB's tagged AttributeValue format.
 */
module Marshal {
  import opened Wrappers
  import opened Text
  import opened Js

  /**
   * An AttributeValue, one tag each. SS carries the JavaScript array the encoder
   * was given, unchanged; MNull is `{M: null}`, which the encoder writes for a
   * nested value that is null.
   */
  datatype Wire =
    | S(s: string)
    | SS(strings: seq<Value>)
    | N(text: string)
    | NS(texts: seq<string>)
    | BOOL(b: bool)
    | L(elements: seq<Wire>)
    | M(fields: seq<(string, Wire)>)
    | MNull

  /** An item: attribute name to AttributeValue, in insertion order. */
  type Item = seq<(string, Wire)>

  // ----- Encoding -----

  /** mapJavascriptObjectToDynamoObject: null for a falsy item, otherwise one entry per encodable own property. */
  function EncodeItem(item: Value): (r: Result<Option<Item>, Error>)
    ensures r.Ok? ==> (r.value.Some? <==> Truthy(item))
    decreases Size(item), 2, 0
  {
    if !Truthy(item) then Ok(None)
    else
      OwnEntriesWeight(item);
      var fields :- EncodeEntries(OwnEntries(item));
      Ok(Some(fields))
  }

  /** The `for…in` loop of the encoder: properties whose value has no encoding are omitted. */
  function EncodeEntries(es: seq<(string, Value)>): (r: Result<Item, Error>)
    decreases MaxWeight(es), 1, |es|
    ensures r.Ok? ==> |r.value| <= |es|
  {
    if es == [] then Ok([])
    else
      var w :- EncodeProperty(es[0].1);
      var rest :- EncodeEntries(es[1..]);
      match w
      case Some(x) => Ok([(es[0].0, x)] + rest)
      case None => Ok(rest)
  }

  /** The tag choice for one property value; None when the value is omitted. */
  function EncodeProperty(v: Value): Result<Option<Wire>, Error>
    decreases Size(v), if IsObjectType(v) then 3 else 0, 0
  {
    match v
    case Str(s) => Ok(Some(S(s)))
    case Num(n) => Ok(Some(N(IntText(n))))
    case NaN => Ok(Some(N("NaN")))
    case Bool(b) => Ok(Some(BOOL(b)))
    case Arr(items) =>
      if |items| == 0 then Ok(Some(SS([])))
      else if TypeOf(items[0]) == "string" then Ok(Some(SS(items)))
      else if TypeOf(items[0]) == "number" then
        var texts :- ToTexts(items);
        Ok(Some(NS(texts)))
      else if TypeOf(items[0]) == "object" then
        var elements :- EncodeElements(items);
        Ok(Some(L(elements)))
      else Ok(None)
    case Obj(_) =>
      var m :- EncodeItem(v);
      Ok(Some(MapTag(m)))
    case Null =>
      var m :- EncodeItem(v);
      Ok(Some(MapTag(m)))
    case Undefined => Ok(None)
  }

  /** `items.map(x => x.toString())`, which throws at the first null or undefined element. */
  function ToTexts(items: seq<Value>): (r: Result<seq<string>, Error>)
    ensures r.Ok? ==> |r.value| == |items| && forall i :: 0 <= i < |items| ==> r.value[i] == StringOf(items[i])
  {
    if items == [] then Ok([])
    else
      var first :- ToText(items[0]);
      var rest :- ToTexts(items[1..]);
      Ok([first] + rest)
  }

  /** A number array fails to encode exactly when some element is null or undefined. */
  lemma {:induction false} ToTextsFails(items: seq<Value>)
    ensures ToTexts(items).Err? <==> exists i :: 0 <= i < |items| && (items[i].Null? || items[i].Undefined?)
  {
    if items != [] {
      ToTextsFails(items[1..]);
      if exists i :: 0 <= i < |items| - 1 && (items[1..][i].Null? || items[1..][i].Undefined?) {
        var i :| 0 <= i < |items| - 1 && (items[1..][i].Null? || items[1..][i].Undefined?);
        assert items[i + 1] == items[1..][i];
      }
      if exists i :: 0 <= i < |items| && (items[i].Null? || items[i].Undefined?) {
        var i :| 0 <= i < |items| && (items[i].Null? || items[i].Undefined?);
        if i > 0 {
          assert items[1..][i - 1] == items[i];
        }
      }
    }
  }

  /** `items.map(x => ({ M: encode(x) }))` for a list whose first element is an object. */
  function EncodeElements(items: seq<Value>): (r: Result<seq<Wire>, Error>)
    ensures r.Ok? ==> |r.value| == |items|
    decreases SizeOfItems(items), 3, |items|
  {
    if items == [] then Ok([])
    else
      var m :- EncodeItem(items[0]);
      var rest :- EncodeElements(items[1..]);
      Ok([MapTag(m)] + rest)
  }

  /** Entry i of an L list is `{M: …}` of the encoding of element i. */
  lemma {:induction false} EncodeElementsAt(items: seq<Value>, i: nat)
    requires i < |items|
    ensures var r := EncodeElements(items);
      r.Ok? ==> EncodeItem(items[i]).Ok? && r.value[i] == MapTag(EncodeItem(items[i]).value)
    decreases i
  {
    if i > 0 {
      EncodeElementsAt(items[1..], i - 1);
      assert items[1..][i - 1] == items[i];
    }
  }

  /** `{M: m}` for an encoded item or null. */
  function MapTag(m: Option<Item>): Wire
  {
    match m
    case None => MNull
    case Some(fields) => M(fields)
  }

  /** The properties the encoder leaves out: undefined, and an array whose first element is a boolean or undefined. */
  predicate Omitted(v: Value)
  {
    v.Undefined? || (v.Arr? && |v.items| > 0 && (v.items[0].Bool? || v.items[0].Undefined?))
  }

  /**
   * The tag the encoder picks for a property, by the property's type: S for a
   * string, N (its text) for a number, BOOL for a boolean, SS for an empty
   * array or one starting with a string, NS (each element's text) for one
   * starting with a number, L (one entry per element) for one starting with an
   * object, and M (the object's own encoding) for an object, `{M: null}` for null.
   */
  lemma TagChoice(v: Value)
    ensures EncodeProperty(v).Ok? && EncodeProperty(v).value.Some? ==>
      var w := EncodeProperty(v).value.value;
      && (w.S? <==> v.Str?) && (w.S? ==> w.s == v.s)
      && (w.N? <==> IsNumber(v)) && (w.N? ==> w.text == StringOf(v))
      && (w.BOOL? <==> v.Bool?) && (w.BOOL? ==> w.b == v.b)
      && (w.SS? <==> v.Arr? && (v.items == [] || v.items[0].Str?)) && (w.SS? ==> w.strings == v.items)
      && (w.NS? <==> v.Arr? && v.items != [] && IsNumber(v.items[0]))
      && (w.NS? ==> |w.texts| == |v.items| && forall i :: 0 <= i < |v.items| ==> w.texts[i] == StringOf(v.items[i]))
      && (w.L? <==> v.Arr? && v.items != [] && IsObjectType(v.items[0]))
      && (w.L? ==> |w.elements| == |v.items| && EncodeElements(v.items) == Ok(w.elements))
      && (w.M? <==> v.Obj?) && (w.M? ==> EncodeItem(v) == Ok(Some(w.fields)))
      && (w.MNull? <==> v.Null?)
  {
  }

  /** Exactly the omitted values are left out, and only arrays and objects can fail. */
  lemma TagOmission(v: Value)
    ensures EncodeProperty(v) == Ok(None) <==> Omitted(v)
    ensures EncodeProperty(v).Err? ==> v.Arr? || v.Obj?
  {
  }

  /** The names of an encoded item, in order. */
  function ItemNames(item: Item): (names: seq<string>)
    ensures |names| == |item|
    ensures forall i :: 0 <= i < |item| ==> names[i] == item[i].0
  {
    seq(|item|, i requires 0 <= i < |item| => item[i].0)
  }

  /** The names of the properties that are not omitted, in `for…in` order. */
  function KeptNames(es: seq<(string, Value)>): seq<string>
  {
    if es == [] then [] else (if Omitted(es[0].1) then [] else [es[0].0]) + KeptNames(es[1..])
  }

  /** A successful encoding has exactly the properties that are not omitted, in their order. */
  lemma {:induction false} EncodedNames(es: seq<(string, Value)>)
    ensures EncodeEntries(es).Ok? ==> ItemNames(EncodeEntries(es).value) == KeptNames(es)
  {
    if es != [] && EncodeEntries(es).Ok? {
      TagOmission(es[0].1);
      EncodedNames(es[1..]);
      var rest := EncodeEntries(es[1..]).value;
      match EncodeProperty(es[0].1).value
      case Some(x) =>
        assert EncodeEntries(es).value == [(es[0].0, x)] + rest;
        assert ItemNames([(es[0].0, x)] + rest) == [es[0].0] + ItemNames(rest);
      case None =>
    }
  }

  /**
   * The value of a kept property: when the encoding succeeds, property i, if it
   * is not omitted, is encoded as its tag choice and placed after the kept
   * properties before it.
   */
  lemma {:induction false} EncodeEntriesAt(es: seq<(string, Value)>, i: nat)
    requires i < |es|
    ensures var r := EncodeEntries(es);
      r.Ok? ==>
        && EncodeProperty(es[i].1).Ok?
        && (!Omitted(es[i].1) ==>
              && EncodeProperty(es[i].1).value.Some?
              && |KeptNames(es[..i])| < |r.value|
              && r.value[|KeptNames(es[..i])|] == (es[i].0, EncodeProperty(es[i].1).value.value))
    decreases i
  {
    TagOmission(es[0].1);
    if i > 0 && EncodeEntries(es).Ok? {
      EncodeEntriesAt(es[1..], i - 1);
      assert es[1..][i - 1] == es[i];
      KeptNamesShift(es, i);
    }
  }

  /** The kept names before property i are the first property's share and those of the rest before it. */
  lemma KeptNamesShift(es: seq<(string, Value)>, i: nat)
    requires 0 < i <= |es|
    ensures KeptNames(es[..i]) == (if Omitted(es[0].1) then [] else [es[0].0]) + KeptNames(es[1..][..i - 1])
  {
    assert es[..i][0] == es[0];
    assert es[..i][1..] == es[1..][..i - 1];
  }

  // ----- Decoding -----

  /** mapDynamoObjectToJavascriptObject: null for a null item, otherwise every attribute decoded. */
  function DecodeItem(item: Option<Item>): Value
  {
    match item
    case None => Null
    case Some(fields) => Obj(DecodeFields(fields))
  }

  /** Every attribute keeps its key, even when its value decodes to undefined. */
  function DecodeFields(fields: Item): (r: seq<(string, Value)>)
    ensures |r| == |fields|
    ensures forall i :: 0 <= i < |fields| ==> r[i].0 == fields[i].0
  {
    if fields == [] then []
    else
      var first := fields[0];
      assert first.1 < first;
      [(first.0, DecodeWire(first.1))] + DecodeFields(fields[1..])
  }

  /** Attribute i of a decoded item is `mapProperty` of wire value i. */
  lemma {:induction false} DecodeFieldsAt(fields: Item, i: nat)
    requires i < |fields|
    ensures DecodeFields(fields)[i] == (fields[i].0, DecodeWire(fields[i].1))
    decreases i
  {
    if i > 0 {
      DecodeFieldsAt(fields[1..], i - 1);
      assert fields[1..][i - 1] == fields[i];
    }
  }

  /**
   * mapProperty: the branch is chosen by the truthiness of the tag's content, so
   * `{S: ""}`, `{N: ""}`, `{BOOL: false}` and `{M: null}` decode to undefined;
   * `{M: fields}` is decoded as the item `fields` is.
   */
  function DecodeWire(w: Wire): Value
  {
    match w
    case S(s) => if s != "" then Str(s) else Undefined
    case SS(strings) => Arr(strings)
    case BOOL(b) => if b then Bool(true) else Undefined
    case N(text) => if text != "" then NumberOf(text) else Undefined
    case NS(texts) => Arr(NumbersOf(texts))
    case L(elements) => Arr(DecodeList(elements))
    case M(fields) => Obj(DecodeFields(fields))
    case MNull => Undefined
  }

  function NumbersOf(texts: seq<string>): (r: seq<Value>)
    ensures |r| == |texts|
    ensures forall i :: 0 <= i < |texts| ==> r[i] == NumberOf(texts[i])
  {
    if texts == [] then [] else [NumberOf(texts[0])] + NumbersOf(texts[1..])
  }

  function DecodeList(elements: seq<Wire>): (r: seq<Value>)
    ensures |r| == |elements|
    ensures forall i :: 0 <= i < |elements| ==> r[i] == DecodeWire(elements[i])
  {
    if elements == [] then [] else [DecodeWire(elements[0])] + DecodeList(elements[1..])
  }

  // ----- The round trip -----

  predicate IsNumber(v: Value)
  {
    v.Num? || v.NaN?
  }

  /**
   * The property values that decode(encode(v)) restores: a non-empty string, any
   * number, true, an array that is empty or starts with a string, an array of
   * numbers, an array of objects (undefined elements allowed after the first)
   * whose properties are all supported, and an object whose properties are.
   */
  predicate Supported(v: Value)
  {
    match v
    case Str(s) => s != ""
    case Num(_) => true
    case NaN => true
    case Bool(b) => b
    case Undefined => false
    case Null => false
    case Obj(fields) => AllSupported(fields)
    case Arr(items) =>
      || items == []
      || items[0].Str?
      || (IsNumber(items[0]) && forall i :: 0 <= i < |items| ==> IsNumber(items[i]))
      || (items[0].Obj? && forall i :: 0 <= i < |items| ==> SupportedElement(items[i]))
  }

  predicate SupportedElement(x: Value)
  {
    x.Undefined? || (x.Obj? && AllSupported(x.fields))
  }

  predicate AllSupported(fields: seq<(string, Value)>)
  {
    if fields == [] then true
    else
      var first := fields[0];
      assert first.1 < first;
      Supported(first.1) && AllSupported(fields[1..])
  }

  /** v is encoded (not omitted, no error) and decodes back to v. */
  predicate PropertyRoundTrips(v: Value)
  {
    var r := EncodeProperty(v);
    r.Ok? && r.value.Some? && DecodeWire(r.value.value) == v
  }

  predicate EntriesRoundTrip(es: seq<(string, Value)>)
  {
    var r := EncodeEntries(es);
    r.Ok? && DecodeFields(r.value) == es
  }

  /** An element of a list encoded as `{M: encode(x)}` decodes back to x. */
  predicate ElementRoundTrips(x: Value)
  {
    var r := EncodeItem(x);
    r.Ok? && DecodeWire(MapTag(r.value)) == x
  }

  /** Number(x.toString()) gives x back exactly for numbers. */
  lemma NumberTextRoundTrip(x: Value)
    ensures NumberOf(StringOf(x)) == x <==> IsNumber(x)
  {
    match x
    case Num(n) => NumberOfIntText(n);
    case NaN => assert !IsDigit("NaN"[0]);
    case _ =>
  }

  lemma {:induction false} NumberTextsRoundTrip(items: seq<Value>)
    ensures (var r := ToTexts(items); r.Ok? && NumbersOf(r.value) == items)
        <==> forall i :: 0 <= i < |items| ==> IsNumber(items[i])
  {
    if items != [] {
      NumberTextRoundTrip(items[0]);
      NumberTextsRoundTrip(items[1..]);
      var r := ToTexts(items);
      if r.Ok? {
        var rest := ToTexts(items[1..]).value;
        assert r.value == [StringOf(items[0])] + rest;
        assert NumbersOf(r.value) == [NumberOf(StringOf(items[0]))] + NumbersOf(rest);
      }
      if forall i :: 0 <= i < |items| ==> IsNumber(items[i]) {
        assert forall i :: 0 <= i < |items| - 1 ==> IsNumber(items[1..][i]);
      }
    }
  }

  /** Every property of es is encoded and decodes back exactly when every value is supported. */
  lemma {:induction false} EntriesRoundTripIff(es: seq<(string, Value)>)
    ensures EntriesRoundTrip(es) <==> AllSupported(es)
    decreases MaxWeight(es), 1, |es|
  {
    if es != [] {
      var (k, v) := es[0];
      PropertyRoundTrip(v);
      EntriesRoundTripIff(es[1..]);
      var r := EncodeEntries(es);
      var w := EncodeProperty(v);
      if r.Ok? {
        var rest := EncodeEntries(es[1..]).value;
        if w.value.Some? {
          assert r.value == [(k, w.value.value)] + rest;
          assert DecodeFields(r.value) == [(k, DecodeWire(w.value.value))] + DecodeFields(rest);
          if DecodeFields(r.value) == es {
            assert DecodeFields(rest) == es[1..];
          }
        } else {
          assert r.value == rest;
        }
      }
    }
  }

  /** A list element comes back exactly when it is undefined or an object whose properties are supported. */
  lemma {:induction false} ElementRoundTrip(x: Value)
    ensures ElementRoundTrips(x) <==> SupportedElement(x)
    decreases Size(x), 2, 0
  {
    if Truthy(x) && x.Obj? {
      OwnEntriesWeight(x);
      EntriesRoundTripIff(x.fields);
    }
  }

  lemma {:induction false} ElementsRoundTrip(items: seq<Value>)
    ensures (var r := EncodeElements(items); r.Ok? && DecodeList(r.value) == items)
        <==> forall i :: 0 <= i < |items| ==> SupportedElement(items[i])
    decreases SizeOfItems(items), 3, |items|
  {
    if items != [] {
      ElementRoundTrip(items[0]);
      ElementsRoundTrip(items[1..]);
      var r := EncodeElements(items);
      if r.Ok? {
        var m := EncodeItem(items[0]).value;
        var rest := EncodeElements(items[1..]).value;
        assert r.value == [MapTag(m)] + rest;
        assert DecodeList(r.value) == [DecodeWire(MapTag(m))] + DecodeList(rest);
        if DecodeList(r.value) == items {
          assert DecodeList(rest) == items[1..];
        }
      }
      if forall i :: 0 <= i < |items| ==> SupportedElement(items[i]) {
        assert forall i :: 0 <= i < |items| - 1 ==> SupportedElement(items[1..][i]);
      }
    }
  }

  /**
   * The round trip for one property: decode(encode(v)) == v exactly for the
   * supported values. In particular "" and false come back as undefined.
   */
  lemma {:induction false} PropertyRoundTrip(v: Value)
    ensures PropertyRoundTrips(v) <==> Supported(v)
    decreases Size(v), if IsObjectType(v) then 3 else 0, 0
  {
    match v
    case Obj(fields) =>
      OwnEntriesWeight(v);
      EntriesRoundTripIff(fields);
      var r := EncodeEntries(fields);
      if r.Ok? {
        assert EncodeProperty(v) == Ok(Some(M(r.value)));
      } else {
        assert EncodeItem(v).Err?;
      }
    case Num(n) => NumberOfIntText(n);
    case NaN => NumberTextRoundTrip(v);
    case Arr(items) => ArrayRoundTrip(items);
    case _ =>
  }

  /** The array case of PropertyRoundTrip, by the type of the first element. */
  lemma {:induction false} ArrayRoundTrip(items: seq<Value>)
    ensures PropertyRoundTrips(Arr(items)) <==> Supported(Arr(items))
    decreases SizeOfItems(items), 4, 1
  {
    if items != [] && !items[0].Str? {
      if IsNumber(items[0]) {
        NumberArrayRoundTrip(items);
      } else if IsObjectType(items[0]) {
        ObjectArrayRoundTrip(items);
      }
    }
  }

  /** An array starting with a number comes back exactly when all its elements are numbers. */
  lemma NumberArrayRoundTrip(items: seq<Value>)
    requires items != [] && IsNumber(items[0])
    ensures PropertyRoundTrips(Arr(items)) <==> forall i :: 0 <= i < |items| ==> IsNumber(items[i])
  {
    NumberTextsRoundTrip(items);
    NumberArrayEncoding(items);
    var r := ToTexts(items);
    if r.Ok? {
      assert DecodeWire(NS(r.value)) == Arr(NumbersOf(r.value));
    }
  }

  /** An array starting with a number is encoded as NS of its elements' texts, or fails with ToTexts. */
  lemma NumberArrayEncoding(items: seq<Value>)
    requires items != [] && IsNumber(items[0])
    ensures var r := ToTexts(items);
      EncodeProperty(Arr(items)) == if r.Ok? then Ok(Some(NS(r.value))) else Err(r.error)
  {
    assert TypeOf(items[0]) == "number";
  }

  /** An array starting with null, an array or an object is encoded as L of its elements, or fails with EncodeElements. */
  lemma ObjectArrayEncoding(items: seq<Value>)
    requires items != [] && IsObjectType(items[0])
    ensures var r := EncodeElements(items);
      EncodeProperty(Arr(items)) == if r.Ok? then Ok(Some(L(r.value))) else Err(r.error)
  {
    assert TypeOf(items[0]) == "object";
  }

  /**
   * An array starting with null, an array or an object comes back exactly when
   * it starts with an object and every element is undefined or a supported object.
   */
  lemma {:induction false} ObjectArrayRoundTrip(items: seq<Value>)
    requires items != [] && IsObjectType(items[0])
    ensures PropertyRoundTrips(Arr(items))
      <==> items[0].Obj? && forall i :: 0 <= i < |items| ==> SupportedElement(items[i])
    decreases SizeOfItems(items), 4, 0
  {
    ElementsRoundTrip(items);
    ObjectArrayEncoding(items);
    var r := EncodeElements(items);
    if r.Ok? {
      assert DecodeWire(L(r.value)) == Arr(DecodeList(r.value));
    }
    assert SupportedElement(items[0]) ==> items[0].Obj?;
  }

  /**
   * The round trip for a whole item: a falsy item encodes to null and null decodes
   * to null; an object comes back exactly when all its properties are supported.
   */
  lemma ItemRoundTrip(item: Value)
    ensures !Truthy(item) ==> EncodeItem(item) == Ok(None) && DecodeItem(None) == Null
    ensures item.Obj? ==>
      ((var r := EncodeItem(item); r.Ok? && r.value.Some? && DecodeItem(r.value) == item)
        <==> AllSupported(item.fields))
  {
    if item.Obj? {
      OwnEntriesWeight(item);
      EntriesRoundTripIff(item.fields);
    }
  }
}
