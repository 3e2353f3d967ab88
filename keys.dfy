/**
 * The two helpers the query layer uses to talk about a table's keys:
 * keyConditionForKeyConditionString, which turns `"OP v1 v2"` into a legacy
 * KeyConditions record, and mapKeySchemaToIndexDefinition, which turns a
 * HASH/RANGE key schema into `{key, keyType, range, rangeType}`.
 */
module Keys {
  import opened Wrappers
  import opened Text
  import opened Js

  // ----- keyConditionForKeyConditionString -----

  /** A legacy KeyConditions record: the operands, each `{[keyType]: token}`, and the comparison operator. */
  datatype KeyCondition = KeyCondition(attributeValueList: seq<Value>, comparisonOperator: string)

  /** One operand: an object whose only property is named by the key's attribute type. */
  function Operand(keyType: string, token: string): Value
  {
    Obj([(keyType, Str(token))])
  }

  function Operands(keyType: string, tokens: seq<string>): (operands: seq<Value>)
    ensures |operands| == |tokens|
    ensures forall j :: 0 <= j < |tokens| ==> operands[j] == Operand(keyType, tokens[j])
  {
    seq(|tokens|, j requires 0 <= j < |tokens| => Operand(keyType, tokens[j]))
  }

  /**
   * Split on single spaces. With more than one token, the first is the operator
   * and the rest are the operands; otherwise the operator is EQ and the whole
   * string is the one operand.
   */
  function KeyConditionForString(condition: string, keyType: string): KeyCondition
  {
    var parts := Split(condition, ' ');
    var values := if |parts| > 1 then parts[1..] else parts;
    var operator := if |parts| > 1 then parts[0] else "EQ";
    KeyCondition(Operands(keyType, values), operator)
  }

  /** The text a caller writes: the operator and the operands separated by single spaces. */
  function KeyConditionString(operator: string, operands: seq<string>): string
  {
    Join([operator] + operands, " ")
  }

  /** Parsing reads back the operator and operands it was written from, when none of them holds a space. */
  lemma ParseReadsBack(operator: string, operands: seq<string>, keyType: string)
    requires |operands| >= 1
    requires ' ' !in operator
    requires forall j :: 0 <= j < |operands| ==> ' ' !in operands[j]
    ensures KeyConditionForString(KeyConditionString(operator, operands), keyType)
      == KeyCondition(Operands(keyType, operands), operator)
  {
    var parts := [operator] + operands;
    forall k | 0 <= k < |parts|
      ensures ' ' !in parts[k]
    {
      if k > 0 {
        assert parts[k] == operands[k - 1];
      }
    }
    SplitJoin(parts, ' ');
    assert parts[1..] == operands;
  }

  /**
   * A string without a space is an EQ condition on the whole string, and only
   * such a string parses to that record.
   */
  lemma SingleTokenIsEq(condition: string, keyType: string)
    ensures ' ' !in condition
      <==> KeyConditionForString(condition, keyType) == KeyCondition([Operand(keyType, condition)], "EQ")
  {
    var parts := Split(condition, ' ');
    SplitCount(condition, ' ');
    CountIn(condition, ' ');
    JoinSplit(condition, ' ');
    if ' ' in condition {
      SplitTokensFree(condition, ' ');
      assert parts[1] in parts;
    } else {
      assert |parts| == 1;
    }
  }

  /**
   * One operand per space when there is a space, otherwise exactly one; then
   * neither the operator nor any operand holds a space, and the operator, a
   * space and the operands joined by spaces give back the input.
   */
  lemma ParseShape(condition: string, keyType: string)
    ensures var r := KeyConditionForString(condition, keyType);
      |r.attributeValueList| == if ' ' in condition then Count(condition, ' ') else 1
    ensures ' ' in condition ==>
      var parts := Split(condition, ' ');
      var r := KeyConditionForString(condition, keyType);
      && ' ' !in r.comparisonOperator
      && (forall j :: 1 <= j < |parts| ==> ' ' !in parts[j] && r.attributeValueList[j - 1] == Operand(keyType, parts[j]))
      && condition == r.comparisonOperator + " " + Join(parts[1..], " ")
  {
    var parts := Split(condition, ' ');
    SplitCount(condition, ' ');
    CountIn(condition, ' ');
    SplitTokensFree(condition, ' ');
    JoinSplit(condition, ' ');
    if ' ' in condition {
      assert parts[0] in parts;
      forall j | 1 <= j < |parts|
        ensures ' ' !in parts[j]
      {
        assert parts[j] in parts;
      }
    }
  }

  // ----- mapKeySchemaToIndexDefinition -----

  /** One KeySchema entry: an attribute name and its KeyType (HASH, RANGE or anything else). */
  datatype KeySchemaElement = KeySchemaElement(attributeName: string, keyType: string)

  /** The index definition; None is a property never set or set to undefined. */
  datatype IndexDefinition = IndexDefinition(
    key: Option<string>,
    keyType: Option<string>,
    range: Option<string>,
    rangeType: Option<string>)

  /** `attributeDefinitions[name]`: the attribute's type, or undefined. */
  function Lookup(attributeDefinitions: map<string, string>, name: string): Option<string>
  {
    if name in attributeDefinitions then Some(attributeDefinitions[name]) else None
  }

  /** The `forEach` over the key schema: a HASH entry sets key and keyType, a RANGE entry range and rangeType. */
  function IndexDefinitionFor(keySchema: seq<KeySchemaElement>, attributeDefinitions: map<string, string>): IndexDefinition
  {
    if keySchema == [] then IndexDefinition(None, None, None, None)
    else
      var before := IndexDefinitionFor(keySchema[..|keySchema| - 1], attributeDefinitions);
      Entered(before, keySchema[|keySchema| - 1], attributeDefinitions)
  }

  /** One step of the `forEach`: the properties one key schema entry sets. */
  function Entered(d: IndexDefinition, e: KeySchemaElement, attributeDefinitions: map<string, string>): IndexDefinition
  {
    if e.keyType == "HASH" then
      d.(key := Some(e.attributeName), keyType := Lookup(attributeDefinitions, e.attributeName))
    else if e.keyType == "RANGE" then
      d.(range := Some(e.attributeName), rangeType := Lookup(attributeDefinitions, e.attributeName))
    else d
  }

  /** The name an index definition holds for a role: key for HASH, range for RANGE. */
  function NameFor(d: IndexDefinition, role: string): Option<string>
  {
    if role == "HASH" then d.key else d.range
  }

  /** The attribute type an index definition holds for a role: keyType for HASH, rangeType for RANGE. */
  function TypeFor(d: IndexDefinition, role: string): Option<string>
  {
    if role == "HASH" then d.keyType else d.rangeType
  }

  /** With no entry of a KeyType (HASH or RANGE), its name and type stay undefined. */
  lemma {:induction false} NoEntryUndefined(keySchema: seq<KeySchemaElement>, attributeDefinitions: map<string, string>, role: string)
    requires role == "HASH" || role == "RANGE"
    requires forall j :: 0 <= j < |keySchema| ==> keySchema[j].keyType != role
    ensures NameFor(IndexDefinitionFor(keySchema, attributeDefinitions), role) == None
    ensures TypeFor(IndexDefinitionFor(keySchema, attributeDefinitions), role) == None
  {
    if keySchema != [] {
      var init := keySchema[..|keySchema| - 1];
      assert forall j :: 0 <= j < |init| ==> init[j] == keySchema[j];
      NoEntryUndefined(init, attributeDefinitions, role);
    }
  }

  /**
   * The last entry of a KeyType (HASH or RANGE) decides the name and the type
   * looked up for it, whatever comes before it and whatever entries of other
   * KeyTypes come after it.
   */
  lemma {:induction false} LastEntryWins(keySchema: seq<KeySchemaElement>, attributeDefinitions: map<string, string>, role: string, j: nat)
    requires role == "HASH" || role == "RANGE"
    requires j < |keySchema| && keySchema[j].keyType == role
    requires forall l :: j < l < |keySchema| ==> keySchema[l].keyType != role
    ensures NameFor(IndexDefinitionFor(keySchema, attributeDefinitions), role) == Some(keySchema[j].attributeName)
    ensures TypeFor(IndexDefinitionFor(keySchema, attributeDefinitions), role)
      == Lookup(attributeDefinitions, keySchema[j].attributeName)
  {
    if j < |keySchema| - 1 {
      var init := keySchema[..|keySchema| - 1];
      assert forall l :: 0 <= l < |init| ==> init[l] == keySchema[l];
      LastEntryWins(init, attributeDefinitions, role, j);
    }
  }

  /** Only HASH and RANGE entries matter: dropping the others leaves the definition as it was. */
  lemma {:induction false} OtherKeyTypesIgnored(keySchema: seq<KeySchemaElement>, attributeDefinitions: map<string, string>)
    ensures IndexDefinitionFor(keySchema, attributeDefinitions)
      == IndexDefinitionFor(KeyEntries(keySchema), attributeDefinitions)
  {
    if keySchema != [] {
      var init := keySchema[..|keySchema| - 1];
      var e := keySchema[|keySchema| - 1];
      OtherKeyTypesIgnored(init, attributeDefinitions);
      assert keySchema == init + [e];
      KeyEntriesAppend(init, e);
      if e.keyType == "HASH" || e.keyType == "RANGE" {
        var kept := KeyEntries(init) + [e];
        assert KeyEntries(keySchema) == kept;
        assert kept[..|kept| - 1] == KeyEntries(init) && kept[|kept| - 1] == e;
        assert IndexDefinitionFor(kept, attributeDefinitions)
          == Entered(IndexDefinitionFor(KeyEntries(init), attributeDefinitions), e, attributeDefinitions);
        assert IndexDefinitionFor(keySchema, attributeDefinitions)
          == Entered(IndexDefinitionFor(init, attributeDefinitions), e, attributeDefinitions);
      } else {
        assert KeyEntries(keySchema) == KeyEntries(init) + [] == KeyEntries(init);
      }
    }
  }

  /** The HASH and RANGE entries of a key schema, in order. */
  function KeyEntries(keySchema: seq<KeySchemaElement>): seq<KeySchemaElement>
  {
    if keySchema == [] then []
    else
      (if keySchema[0].keyType == "HASH" || keySchema[0].keyType == "RANGE" then [keySchema[0]] else [])
        + KeyEntries(keySchema[1..])
  }

  lemma {:induction false} KeyEntriesAppend(keySchema: seq<KeySchemaElement>, e: KeySchemaElement)
    ensures KeyEntries(keySchema + [e])
      == KeyEntries(keySchema) + (if e.keyType == "HASH" || e.keyType == "RANGE" then [e] else [])
  {
    if keySchema == [] {
      assert [] + [e] == [e];
    } else {
      KeyEntriesAppend(keySchema[1..], e);
      assert (keySchema + [e])[1..] == keySchema[1..] + [e];
    }
  }
}
