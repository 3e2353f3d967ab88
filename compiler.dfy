/**
 * mapConditionDefinitionToConditionExpression as the source runs it: one
 * compile's closure state (two counters and four tables) held in an object
 * that the nested helpers update in place. Every method is proved to do what
 * the functions of module Condition say.
 */
module ConditionCompiler {
  import opened Wrappers
  import opened Text
  import opened Js
  import Marshal
  import opened Condition
  import opened ConditionProperties

  /** The text a table entry is named by: the sigil and a 1-based position. */
  function Tag(sigil: char, i: nat): string
  {
    [sigil] + NatText(i)
  }

  /**
   * `lookup` is the reverse of `entries`: entries has no repeats, the lookup
   * holds exactly its entries, and entry i is tagged with position i + 1.
   */
  ghost predicate Indexed(entries: seq<string>, lookup: map<string, string>, sigil: char)
  {
    && Distinct(entries)
    && (forall e :: e in lookup <==> e in entries)
    && (forall i :: 0 <= i < |entries| ==> entries[i] in lookup && lookup[entries[i]] == Tag(sigil, i + 1))
  }

  lemma IndexedAppend(entries: seq<string>, lookup: map<string, string>, sigil: char, e: string)
    requires Indexed(entries, lookup, sigil) && e !in lookup
    ensures Indexed(entries + [e], lookup[e := Tag(sigil, |entries| + 1)], sigil)
  {
    var entries', lookup' := entries + [e], lookup[e := Tag(sigil, |entries| + 1)];
    forall i | 0 <= i < |entries'|
      ensures entries'[i] in lookup' && lookup'[entries'[i]] == Tag(sigil, i + 1)
    {
      if i < |entries| {
        assert entries'[i] == entries[i] != e;
      }
    }
  }

  class Compiler {
    /** expressionAttributeNames: `#i` names expressionAttributeNames[i-1]. */
    var expressionAttributeNames: seq<string>
    /** Attribute name to its alias. */
    var namesForExpressionAttributes: map<string, string>
    /** expressionAttributeValues: `:i` holds expressionAttributeValues[i-1]. */
    var expressionAttributeValues: seq<Value>
    /** `String(value)` to its placeholder. */
    var valuesForExpressionAttributes: map<string, string>
    var expressionAttributeValuesCount: nat
    var expressionAttributeNamesCount: nat

    /** The compile state, as the functions of module Condition see it. */
    ghost function State(): Tables
      reads this
    {
      Tables(expressionAttributeNames, expressionAttributeValues)
    }

    /**
     * Each counter is one more than the size of its table; each table has no
     * repeats and its reverse lookup gives every entry its 1-based position.
     */
    ghost predicate Valid()
      reads this
    {
      NamesValid() && ValuesValid()
    }

    ghost predicate NamesValid()
      reads this`expressionAttributeNames, this`namesForExpressionAttributes, this`expressionAttributeNamesCount
    {
      expressionAttributeNamesCount == |expressionAttributeNames| + 1
      && Indexed(expressionAttributeNames, namesForExpressionAttributes, '#')
    }

    ghost predicate ValuesValid()
      reads this`expressionAttributeValues, this`valuesForExpressionAttributes, this`expressionAttributeValuesCount
    {
      expressionAttributeValuesCount == |expressionAttributeValues| + 1
      && Indexed(Keys(expressionAttributeValues), valuesForExpressionAttributes, ':')
    }

    /** The reverse lookup of a name gives its alias. */
    lemma NameLookup(name: string)
      requires Valid() && name in expressionAttributeNames
      ensures name in namesForExpressionAttributes
      ensures namesForExpressionAttributes[name] == AliasOf(State(), name)
    {
      var i := IndexOf(expressionAttributeNames, name);
      assert expressionAttributeNames[i] in namesForExpressionAttributes;
      assert namesForExpressionAttributes[expressionAttributeNames[i]] == Tag('#', i + 1);
      assert Tag('#', i + 1) == Alias(i + 1);
    }

    /** The reverse lookup of a value's key gives its placeholder. */
    lemma ValueLookup(v: Value)
      requires Valid() && StringOf(v) in Keys(expressionAttributeValues)
      ensures StringOf(v) in valuesForExpressionAttributes
      ensures valuesForExpressionAttributes[StringOf(v)] == PlaceholderOf(State(), v)
    {
      var keys := Keys(expressionAttributeValues);
      var i := IndexOf(keys, StringOf(v));
      assert keys[i] in valuesForExpressionAttributes && valuesForExpressionAttributes[keys[i]] == Tag(':', i + 1);
      assert Tag(':', i + 1) == Placeholder(i + 1);
    }

    /** The method's outcome is the function's: the same text and state, or the same error. */
    ghost predicate Agrees(r: Result<string, Error>, spec: Result<Out, Error>)
      reads this
    {
      match spec
      case Ok(o) => r == Ok(o.text) && State() == o.tables
      case Err(e) => r == Err(e)
    }

    /** The same for a loop of pieces: the same texts and state, or the same error. */
    ghost predicate AgreesAll(r: Result<seq<string>, Error>, spec: Result<Outs, Error>)
      reads this
    {
      match spec
      case Ok(o) => r == Ok(o.texts) && State() == o.tables
      case Err(e) => r == Err(e)
    }

    constructor ()
      ensures Valid() && State() == Tables([], [])
    {
      expressionAttributeNames := [];
      namesForExpressionAttributes := map[];
      expressionAttributeValues := [];
      valuesForExpressionAttributes := map[];
      expressionAttributeValuesCount := 1;
      expressionAttributeNamesCount := 1;
    }

    /** Interning one value, as writeOperatorExpression does inline for each operand. */
    method InternValue(v: Value) returns (placeholder: string)
      requires Valid()
      modifies this
      ensures Valid()
      ensures State() == Condition.InternValue(old(State()), v)
      ensures placeholder == PlaceholderOf(State(), v)
    {
      var key := StringOf(v);
      if key !in valuesForExpressionAttributes {
        ghost var keys := Keys(expressionAttributeValues);
        valuesForExpressionAttributes := valuesForExpressionAttributes[key := Placeholder(expressionAttributeValuesCount)];
        expressionAttributeValues := expressionAttributeValues + [v];
        expressionAttributeValuesCount := expressionAttributeValuesCount + 1;
        assert Keys(expressionAttributeValues) == keys + [key];
        IndexedAppend(keys, old(valuesForExpressionAttributes), ':', key);
      }
      ValueLookup(v);
      placeholder := valuesForExpressionAttributes[key];
    }

    /** Interning one attribute name, as mapExpressionDefinitionToConditionExpression does inline. */
    method InternName(name: string)
      requires Valid()
      modifies this
      ensures Valid()
      ensures State() == old(State()).(names := WithName(old(State()).names, name))
    {
      if name !in namesForExpressionAttributes {
        IndexedAppend(expressionAttributeNames, namesForExpressionAttributes, '#', name);
        namesForExpressionAttributes := namesForExpressionAttributes[name := Alias(expressionAttributeNamesCount)];
        expressionAttributeNames := expressionAttributeNames + [name];
        expressionAttributeNamesCount := expressionAttributeNamesCount + 1;
      }
    }

    /** The `values.forEach` of IN and BETWEEN. */
    method InternEach(items: seq<Value>) returns (placeholders: seq<string>)
      requires Valid()
      modifies this
      ensures Valid()
      ensures (placeholders, State()) == InternAll(old(State()), [], items)
    {
      placeholders := [];
      var i := 0;
      while i < |items|
        invariant 0 <= i <= |items|
        invariant Valid()
        invariant InternAll(old(State()), [], items) == InternAll(State(), placeholders, items[i..])
      {
        assert items[i..][1..] == items[i + 1..];
        var p := InternValue(items[i]);
        placeholders := placeholders + [p];
        i := i + 1;
      }
    }

    method WriteOperatorExpression(conditionKey: string, operator: string, values: Value) returns (r: Result<string, Error>)
      requires Valid() && conditionKey in expressionAttributeNames
      modifies this
      ensures Valid() && expressionAttributeNames == old(expressionAttributeNames)
      ensures Agrees(r, WriteOperator(old(State()), conditionKey, operator, values))
    {
      NameLookup(conditionKey);
      ghost var t := State();
      if IsComparison(operator) {
        var placeholder := InternValue(values);
        r := Ok(namesForExpressionAttributes[conditionKey] + " " + operator + " " + placeholder);
        ComparisonOperand(t, conditionKey, operator, values);
      } else if operator == "IN" {
        if !values.Arr? {
          return Err(InRequiresArray(conditionKey));
        }
        var valuePlaceholders := InternEach(values.items);
        r := Ok(namesForExpressionAttributes[conditionKey] + " IN (" + Join(valuePlaceholders, ", ") + ")");
        InOperands(t, conditionKey, values.items);
      } else if operator == "BETWEEN" {
        if !values.Arr? || |values.items| != 2 {
          return Err(BetweenRequiresPair(conditionKey));
        }
        var betweenValuePlaceholders := InternEach(values.items);
        r := Ok(namesForExpressionAttributes[conditionKey] + " BETWEEN " + betweenValuePlaceholders[0]
                + " AND " + betweenValuePlaceholders[1]);
        BetweenOperands(t, conditionKey, values.items);
      } else if operator == "CONTAINS" {
        var placeholder := InternValue(values);
        r := Ok("contains ( " + namesForExpressionAttributes[conditionKey] + ", " + placeholder + " )");
        ContainsOperand(t, conditionKey, values);
      } else {
        r := Err(InvalidOperator(operator, conditionKey));
      }
    }

    /** mapOperatorsObjectToConditionExpression: the operators of one attribute, implicitly ANDed. */
    method MapOperatorsObject(conditionKey: string, operatorsDefinition: Value) returns (r: Result<string, Error>)
      requires Valid() && conditionKey in expressionAttributeNames
      modifies this
      ensures Valid()
      ensures Agrees(r, OperatorsObject(old(State()), conditionKey, operatorsDefinition))
    {
      var operations :- WriteOperators(conditionKey, OwnEntries(operatorsDefinition));
      if |operations| == 1 {
        return Ok(operations[0]);
      }
      return Ok("( " + Join(operations, " AND ") + " )");
    }

    /** The `for…in` loop over an operator object: one piece per operator, stopping at the first error. */
    method WriteOperators(conditionKey: string, entries: seq<(string, Value)>) returns (r: Result<seq<string>, Error>)
      requires Valid() && conditionKey in expressionAttributeNames
      modifies this
      ensures Valid() && expressionAttributeNames == old(expressionAttributeNames)
      ensures AgreesAll(r, OperatorsFrom(old(State()), [], conditionKey, entries))
    {
      var operations: seq<string> := [];
      var i := 0;
      while i < |entries|
        invariant 0 <= i <= |entries|
        invariant Valid() && expressionAttributeNames == old(expressionAttributeNames)
        invariant OperatorsFrom(old(State()), [], conditionKey, entries)
               == OperatorsFrom(State(), operations, conditionKey, entries[i..])
      {
        assert entries[i..][1..] == entries[i + 1..];
        var operation := WriteOperatorExpression(conditionKey, entries[i].0, entries[i].1);
        if operation.Err? {
          return Err(operation.error);
        }
        operations := operations + [operation.value];
        i := i + 1;
      }
      assert entries[i..] == [];
      return Ok(operations);
    }

    /**
     * mapCompositeExpressionDefinitionToConditionExpression: every sub-definition
     * is compiled into currentExpressions, which is then dropped, so the result
     * joins an empty list.
     */
    method MapComposite(compositionType: string, composedExpressionDefinitions: Value) returns (r: Result<string, Error>)
      requires Valid() && (compositionType == "AND" || compositionType == "OR")
      modifies this
      ensures Valid()
      ensures Agrees(r, Expr(old(State()), compositionType, composedExpressionDefinitions))
      decreases Size(composedExpressionDefinitions), 1, 0
    {
      if !composedExpressionDefinitions.Arr? {
        return Err(NotAnArray(compositionType));
      }
      var expressions: seq<string> := [];
      var definitions := composedExpressionDefinitions.items;
      var n := 0;
      while n < |definitions|
        invariant 0 <= n <= |definitions|
        invariant Valid()
        invariant Composite(old(State()), definitions) == Composite(State(), definitions[n..])
      {
        assert definitions[n..][1..] == definitions[n + 1..];
        SizeOfItemsAt(definitions, n);
        OwnEntriesWeight(definitions[n]);
        var currentExpressions := MapEntries(OwnEntries(definitions[n]));
        if currentExpressions.Err? {
          return Err(currentExpressions.error);
        }
        n := n + 1;
      }
      return Ok("( " + Join(expressions, " " + compositionType + " ") + " )");
    }

    /** mapNotExpressionDefinitionToConditionExpression: NOT over the ANDed keys of one definition. */
    method MapNot(expressionDefinition: Value) returns (r: Result<string, Error>)
      requires Valid()
      modifies this
      ensures Valid()
      ensures Agrees(r, Expr(old(State()), "NOT", expressionDefinition))
      decreases Size(expressionDefinition), 1, 1
    {
      OwnEntriesWeight(expressionDefinition);
      var expressions :- MapEntries(OwnEntries(expressionDefinition));
      if |expressions| == 1 {
        return Ok("NOT " + expressions[0]);
      }
      return Ok("NOT ( " + Join(expressions, " AND ") + " )");
    }

    /**
     * The `for…in` loop over one definition's keys, which the top level, AND/OR
     * and NOT each run: every key compiled in order, stopping at the first error.
     */
    method MapEntries(entries: seq<(string, Value)>) returns (r: Result<seq<string>, Error>)
      requires Valid()
      modifies this
      ensures Valid()
      ensures AgreesAll(r, EntriesFrom(old(State()), [], entries))
      decreases MaxWeight(entries), 1, 0
    {
      var expressions: seq<string> := [];
      var i := 0;
      while i < |entries|
        invariant 0 <= i <= |entries|
        invariant Valid()
        invariant EntriesFrom(old(State()), [], entries) == EntriesFrom(State(), expressions, entries[i..])
      {
        assert entries[i..][1..] == entries[i + 1..];
        MaxWeightAt(entries, i);
        var expression := MapExpressionDefinition(entries[i].0, entries[i].1);
        if expression.Err? {
          return Err(expression.error);
        }
        expressions := expressions + [expression.value];
        i := i + 1;
      }
      assert entries[i..] == [];
      return Ok(expressions);
    }

    /** mapExpressionDefinitionToConditionExpression: dispatch on the special keys, else intern the name first. */
    method MapExpressionDefinition(conditionKey: string, expressionDefinition: Value) returns (r: Result<string, Error>)
      requires Valid()
      modifies this
      ensures Valid()
      ensures Agrees(r, Expr(old(State()), conditionKey, expressionDefinition))
      decreases Size(expressionDefinition), if IsSpecialKey(conditionKey) then 2 else 0, 0
    {
      if conditionKey == "AND" || conditionKey == "OR" {
        r := MapComposite(conditionKey, expressionDefinition);
        return;
      }
      if conditionKey == "NOT" {
        r := MapNot(expressionDefinition);
        return;
      }
      InternName(conditionKey);
      if IsObjectType(expressionDefinition) {
        r := MapOperatorsObject(conditionKey, expressionDefinition);
        return;
      }
      r := WriteOperatorExpression(conditionKey, "=", expressionDefinition);
    }
  }

  /**
   * mapConditionDefinitionToConditionExpression: a fresh compile state, every
   * top-level key compiled in order and the pieces joined with AND, the values
   * table encoded.
   */
  method MapConditionDefinitionToConditionExpression(conditionDefinition: Value) returns (r: Result<Compiled, Error>)
    ensures r == Compile(conditionDefinition)
  {
    var compiler := new Compiler();
    var expressions :- compiler.MapEntries(OwnEntries(conditionDefinition));
    var values :- Marshal.EncodeItem(Obj(ValueTable(compiler.expressionAttributeValues)));
    r := Ok(Compiled(Join(expressions, " AND "), NameTable(compiler.expressionAttributeNames), values.value));
  }
}
