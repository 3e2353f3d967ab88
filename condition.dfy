/**
 * The condition-expression compiler (mapConditionDefinitionToConditionExpression)
 * as functions over an explicit compile state. The class in compiler.dfy runs
 * the same steps in place and is proved to agree with these functions.
 *
 * A condition definition is a JavaScript value walked with `for…in`: the keys
 * AND and OR take an array of sub-definitions, NOT takes one sub-definition,
 * and every other key is an attribute name whose value is either an operator
 * object (`typeof … === 'object'`) or a plain operand compared with `=`.
 */
module Condition {
  import opened Wrappers
  import opened Text
  import opened Js
  import Marshal

  /**
   * The state a compile accumulates: expressionAttributeNames maps `#i` to
   * names[i-1] and expressionAttributeValues maps `:i` to values[i-1].
   * (namesForExpressionAttributes and valuesForExpressionAttributes are the
   * reverse lookups, derived here by AliasOf and PlaceholderOf.)
   */
  datatype Tables = Tables(names: seq<string>, values: seq<Value>)

  /** One compiled piece of expression text and the state after it. */
  datatype Out = Out(text: string, tables: Tables)

  /** The pieces compiled by a loop, in order, and the state after them. */
  datatype Outs = Outs(texts: seq<string>, tables: Tables)

  /** What a compile returns: the expression and the two placeholder tables. */
  datatype Compiled = Compiled(
    conditionExpression: string,
    expressionAttributeNames: seq<(string, string)>,
    expressionAttributeValues: Marshal.Item)

  function Alias(i: nat): string
  {
    "#" + NatText(i)
  }

  function Placeholder(i: nat): string
  {
    ":" + NatText(i)
  }

  predicate Distinct<T(==)>(s: seq<T>)
  {
    forall i, j :: 0 <= i < j < |s| ==> s[i] != s[j]
  }

  /** The first position of x in s. */
  function IndexOf<T(==)>(s: seq<T>, x: T): (i: nat)
    requires x in s
    ensures i < |s| && s[i] == x
  {
    if s[0] == x then 0 else 1 + IndexOf(s[1..], x)
  }

  /** The property keys the values table is looked up by: `String(v)` for each value. */
  function Keys(values: seq<Value>): (keys: seq<string>)
    ensures |keys| == |values|
    ensures forall i {:trigger keys[i]} :: 0 <= i < |values| ==> keys[i] == StringOf(values[i])
  {
    if values == [] then [] else [StringOf(values[0])] + Keys(values[1..])
  }

  // ----- Interning -----

  /** Intern an attribute name: a name seen before keeps its alias, a new one is appended. */
  function WithName(names: seq<string>, name: string): (r: seq<string>)
    ensures names <= r && name in r && |r| <= |names| + 1
  {
    if name in names then names else names + [name]
  }

  /** Intern a value: a value whose key was seen before keeps its placeholder, a new one is appended. */
  function WithValue(values: seq<Value>, v: Value): (r: seq<Value>)
    ensures StringOf(v) in Keys(r)
  {
    if StringOf(v) in Keys(values) then values
    else
      assert Keys(values + [v])[|values|] == StringOf(v);
      values + [v]
  }

  /** The alias of an interned name: `#` and its 1-based position. */
  function AliasOf(t: Tables, name: string): string
    requires name in t.names
  {
    Alias(IndexOf(t.names, name) + 1)
  }

  /** The placeholder of an interned value: `:` and the 1-based position of its key. */
  function PlaceholderOf(t: Tables, v: Value): string
    requires StringOf(v) in Keys(t.values)
  {
    Placeholder(IndexOf(Keys(t.values), StringOf(v)) + 1)
  }

  function InternValue(t: Tables, v: Value): (t': Tables)
    ensures StringOf(v) in Keys(t'.values)
  {
    t.(values := WithValue(t.values, v))
  }

  /** The `values.forEach` loop of IN and BETWEEN: intern each element, collecting placeholders. */
  function InternAll(t: Tables, acc: seq<string>, vs: seq<Value>): (r: (seq<string>, Tables))
    ensures |r.0| == |acc| + |vs|
    ensures r.1.names == t.names
    decreases |vs|
  {
    if vs == [] then (acc, t)
    else
      var t1 := InternValue(t, vs[0]);
      InternAll(t1, acc + [PlaceholderOf(t1, vs[0])], vs[1..])
  }

  // ----- writeOperatorExpression -----

  predicate IsComparison(op: string)
  {
    op == "=" || op == ">" || op == ">=" || op == "<" || op == "<=" || op == "<>"
  }

  function WriteOperator(t: Tables, key: string, op: string, v: Value): (r: Result<Out, Error>)
    requires key in t.names
    ensures r.Ok? ==> r.value.tables.names == t.names
  {
    var alias := AliasOf(t, key);
    if IsComparison(op) then
      var t1 := InternValue(t, v);
      Ok(Out(alias + " " + op + " " + PlaceholderOf(t1, v), t1))
    else if op == "IN" then
      if !v.Arr? then Err(InRequiresArray(key))
      else
        var (placeholders, t1) := InternAll(t, [], v.items);
        Ok(Out(alias + " IN (" + Join(placeholders, ", ") + ")", t1))
    else if op == "BETWEEN" then
      if !v.Arr? || |v.items| != 2 then Err(BetweenRequiresPair(key))
      else
        var (placeholders, t1) := InternAll(t, [], v.items);
        Ok(Out(alias + " BETWEEN " + placeholders[0] + " AND " + placeholders[1], t1))
    else if op == "CONTAINS" then
      var t1 := InternValue(t, v);
      Ok(Out("contains ( " + alias + ", " + PlaceholderOf(t1, v) + " )", t1))
    else
      Err(InvalidOperator(op, key))
  }

  // ----- mapOperatorsObjectToConditionExpression -----

  /** The `for…in` loop over an operator object: one piece per operator, in order. */
  function OperatorsFrom(t: Tables, acc: seq<string>, key: string, ops: seq<(string, Value)>): (r: Result<Outs, Error>)
    requires key in t.names
    ensures r.Ok? ==> r.value.tables.names == t.names
    decreases |ops|
  {
    if ops == [] then Ok(Outs(acc, t))
    else
      var o :- WriteOperator(t, key, ops[0].0, ops[0].1);
      OperatorsFrom(o.tables, acc + [o.text], key, ops[1..])
  }

  /** Operators of one attribute are ANDed: one piece is returned bare, any other number is parenthesised. */
  function OperatorsObject(t: Tables, key: string, def: Value): (r: Result<Out, Error>)
    requires key in t.names
    ensures r.Ok? ==> r.value.tables.names == t.names
  {
    var outs :- OperatorsFrom(t, [], key, OwnEntries(def));
    var text := if |outs.texts| == 1 then outs.texts[0] else "( " + Join(outs.texts, " AND ") + " )";
    Ok(Out(text, outs.tables))
  }

  // ----- mapExpressionDefinitionToConditionExpression and the composite and NOT forms -----

  /** One key of a definition: AND/OR, NOT, or an attribute name. */
  function Expr(t: Tables, key: string, def: Value): Result<Out, Error>
    decreases Size(def), if IsSpecialKey(key) then 2 else 0, 0
  {
    if key == "AND" || key == "OR" then
      if !def.Arr? then Err(NotAnArray(key))
      else
        var t1 :- Composite(t, def.items);
        // Each sub-definition's pieces are dropped, so nothing is ever joined.
        var expressions: seq<string> := [];
        Ok(Out("( " + Join(expressions, " " + key + " ") + " )", t1))
    else if key == "NOT" then
      OwnEntriesWeight(def);
      var outs :- EntriesFrom(t, [], OwnEntries(def));
      var text := if |outs.texts| == 1 then "NOT " + outs.texts[0] else "NOT ( " + Join(outs.texts, " AND ") + " )";
      Ok(Out(text, outs.tables))
    else
      var t1 := t.(names := WithName(t.names, key));
      if IsObjectType(def) then OperatorsObject(t1, key, def) else WriteOperator(t1, key, "=", def)
  }

  /** The `for…in` loop over a definition's keys: one piece per key, in order. */
  function EntriesFrom(t: Tables, acc: seq<string>, es: seq<(string, Value)>): Result<Outs, Error>
    decreases MaxWeight(es), 1, |es|
  {
    if es == [] then Ok(Outs(acc, t))
    else
      var o :- Expr(t, es[0].0, es[0].1);
      EntriesFrom(o.tables, acc + [o.text], es[1..])
  }

  /** The `forEach` over the sub-definitions of AND/OR: each is compiled for its effect on the state only. */
  function Composite(t: Tables, items: seq<Value>): Result<Tables, Error>
    decreases SizeOfItems(items), 2, |items|
  {
    if items == [] then Ok(t)
    else
      OwnEntriesWeight(items[0]);
      var outs :- EntriesFrom(t, [], OwnEntries(items[0]));
      Composite(outs.tables, items[1..])
  }

  // ----- The whole compile -----

  function NameTable(names: seq<string>): (table: seq<(string, string)>)
    ensures |table| == |names|
    ensures forall i :: 0 <= i < |names| ==> table[i] == (Alias(i + 1), names[i])
  {
    seq(|names|, i requires 0 <= i < |names| => (Alias(i + 1), names[i]))
  }

  function ValueTable(values: seq<Value>): (table: seq<(string, Value)>)
    ensures |table| == |values|
    ensures forall i :: 0 <= i < |values| ==> table[i] == (Placeholder(i + 1), values[i])
  {
    seq(|values|, i requires 0 <= i < |values| => (Placeholder(i + 1), values[i]))
  }

  /**
   * mapConditionDefinitionToConditionExpression: the top-level keys are joined
   * with AND, and the values table is passed through the encoder.
   */
  function Compile(condition: Value): Result<Compiled, Error>
  {
    var outs :- EntriesFrom(Tables([], []), [], OwnEntries(condition));
    var values :- Marshal.EncodeItem(Obj(ValueTable(outs.tables.values)));
    Ok(Compiled(Join(outs.texts, " AND "), NameTable(outs.tables.names), values.value))
  }
}
