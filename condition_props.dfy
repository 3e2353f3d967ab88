/**
 * What the condition compiler promises, proved about the functions of module
 * Condition: how names and values are interned and numbered, that the tables
 * only grow and never hold a repeat, which attribute names a compile interns,
 * the shape of the AND/OR and NOT forms, and the names table a compile returns.
 */
module ConditionProperties {
  import opened Wrappers
  import opened Text
  import opened Js
  import opened Condition

  function Elems<T>(s: seq<T>): set<T>
  {
    set x | x in s
  }

  /** t' is t with entries appended to either table: nothing interned is lost or renumbered. */
  predicate Extends(t: Tables, t': Tables)
  {
    t.names <= t'.names && t.values <= t'.values
  }

  /** No attribute name and no value key appears twice. */
  predicate WellFormed(t: Tables)
  {
    Distinct(t.names) && Distinct(Keys(t.values))
  }

  // ----- Positions in sequences -----

  lemma {:induction false} IndexOfExtended<T>(s: seq<T>, s': seq<T>, x: T)
    requires x in s && s <= s'
    ensures x in s' && IndexOf(s', x) == IndexOf(s, x)
  {
    assert s'[0] == s[0];
    if s[0] != x {
      assert s[1..] <= s'[1..];
      IndexOfExtended(s[1..], s'[1..], x);
    }
  }

  lemma IndexOfAppended<T>(s: seq<T>, x: T)
    requires x !in s
    ensures IndexOf(s + [x], x) == |s|
  {
  }

  lemma DistinctAppended<T>(s: seq<T>, x: T)
    requires Distinct(s) && x !in s
    ensures Distinct(s + [x])
  {
    forall i, j | 0 <= i < j < |s| + 1
      ensures (s + [x])[i] != (s + [x])[j]
    {
      assert (s + [x])[i] == s[i];
    }
  }

  lemma ExtendsTransitive(t1: Tables, t2: Tables, t3: Tables)
    requires Extends(t1, t2) && Extends(t2, t3)
    ensures Extends(t1, t3)
  {
    assert t1.names == t3.names[..|t1.names|];
    assert t1.values == t3.values[..|t1.values|];
  }

  lemma KeysExtended(values: seq<Value>, values': seq<Value>)
    requires values <= values'
    ensures Keys(values) <= Keys(values')
  {
    assert Keys(values) == Keys(values')[..|values|];
  }

  // ----- Numbering -----

  /** Different positions get different aliases. */
  lemma AliasInjective(i: nat, j: nat)
    ensures Alias(i) == Alias(j) <==> i == j
  {
    if Alias(i) == Alias(j) {
      assert Alias(i)[1..] == NatText(i);
      assert Alias(j)[1..] == NatText(j);
      NatTextInjective(i, j);
    }
  }

  /** Different positions get different placeholders. */
  lemma PlaceholderInjective(i: nat, j: nat)
    ensures Placeholder(i) == Placeholder(j) <==> i == j
  {
    if Placeholder(i) == Placeholder(j) {
      assert Placeholder(i)[1..] == NatText(i);
      assert Placeholder(j)[1..] == NatText(j);
      NatTextInjective(i, j);
    }
  }

  /** Once interned, a name keeps its alias however the tables grow. */
  lemma AliasStable(t: Tables, t': Tables, name: string)
    requires name in t.names && Extends(t, t')
    ensures name in t'.names && AliasOf(t', name) == AliasOf(t, name)
  {
    IndexOfExtended(t.names, t'.names, name);
  }

  /** Once interned, a value keeps its placeholder however the tables grow. */
  lemma PlaceholderStable(t: Tables, t': Tables, v: Value)
    requires StringOf(v) in Keys(t.values) && Extends(t, t')
    ensures StringOf(v) in Keys(t'.values) && PlaceholderOf(t', v) == PlaceholderOf(t, v)
  {
    KeysExtended(t.values, t'.values);
    IndexOfExtended(Keys(t.values), Keys(t'.values), StringOf(v));
  }

  /** In a table without repeats, the entry at position i is aliased `#(i+1)`. */
  lemma AliasOfPosition(t: Tables, i: nat)
    requires Distinct(t.names) && i < |t.names|
    ensures AliasOf(t, t.names[i]) == Alias(i + 1)
  {
    var k := IndexOf(t.names, t.names[i]);
    assert t.names[k] == t.names[i];
  }

  // ----- Interning -----

  /**
   * A name seen before keeps its alias and changes nothing; a new name is
   * appended and gets the next number, `#(count)` with count = names + 1.
   */
  lemma NameInterning(t: Tables, name: string)
    ensures var t' := t.(names := WithName(t.names, name));
      && Extends(t, t') && name in t'.names
      && (WellFormed(t) ==> WellFormed(t'))
      && (name in t.names ==> t' == t)
      && (name !in t.names ==> t'.names == t.names + [name] && AliasOf(t', name) == Alias(|t.names| + 1))
  {
    if name !in t.names {
      IndexOfAppended(t.names, name);
      if Distinct(t.names) {
        DistinctAppended(t.names, name);
      }
    }
  }

  /**
   * A value whose key `String(v)` is already interned reuses its placeholder
   * and changes nothing; any other value is appended and gets the next number.
   */
  lemma ValueInterning(t: Tables, v: Value)
    ensures var t' := InternValue(t, v);
      && Extends(t, t') && t'.names == t.names
      && (WellFormed(t) ==> WellFormed(t'))
      && (StringOf(v) in Keys(t.values) ==> t' == t)
      && (StringOf(v) !in Keys(t.values) ==>
            t'.values == t.values + [v] && PlaceholderOf(t', v) == Placeholder(|t.values| + 1))
  {
    var key := StringOf(v);
    if key !in Keys(t.values) {
      KeysAppended(t.values, v);
      IndexOfAppended(Keys(t.values), key);
      if Distinct(Keys(t.values)) {
        DistinctAppended(Keys(t.values), key);
      }
    }
  }

  /** Interning a list of values only appends to the values table, without repeats. */
  lemma KeysAppended(values: seq<Value>, v: Value)
    ensures Keys(values + [v]) == Keys(values) + [StringOf(v)]
  {
  }

  lemma {:induction false} InternAllTables(t: Tables, acc: seq<string>, vs: seq<Value>)
    ensures Extends(t, InternAll(t, acc, vs).1)
    ensures WellFormed(t) ==> WellFormed(InternAll(t, acc, vs).1)
    decreases |vs|
  {
    if vs != [] {
      var t1 := InternValue(t, vs[0]);
      ValueInterning(t, vs[0]);
      InternAllTables(t1, acc + [PlaceholderOf(t1, vs[0])], vs[1..]);
      ExtendsTransitive(t, t1, InternAll(t, acc, vs).1);
    }
  }

  /** Interning a list of values keeps the placeholders collected before it. */
  lemma {:induction false} InternAllKeepsPrefix(t: Tables, acc: seq<string>, vs: seq<Value>)
    ensures InternAll(t, acc, vs).0[..|acc|] == acc
    decreases |vs|
  {
    if vs != [] {
      var t1 := InternValue(t, vs[0]);
      var acc1 := acc + [PlaceholderOf(t1, vs[0])];
      InternAllKeepsPrefix(t1, acc1, vs[1..]);
      assert InternAll(t, acc, vs).0[..|acc|] == acc1[..|acc|];
    }
  }

  /** The first element's placeholder is the one the final table gives it. */
  lemma InternAllHead(t: Tables, acc: seq<string>, vs: seq<Value>)
    requires vs != []
    ensures var r := InternAll(t, acc, vs);
      StringOf(vs[0]) in Keys(r.1.values) && r.0[|acc|] == PlaceholderOf(r.1, vs[0])
  {
    var t1 := InternValue(t, vs[0]);
    var acc1 := acc + [PlaceholderOf(t1, vs[0])];
    var r := InternAll(t1, acc1, vs[1..]);
    InternAllTables(t1, acc1, vs[1..]);
    PlaceholderStable(t1, r.1, vs[0]);
    InternAllKeepsPrefix(t1, acc1, vs[1..]);
    assert r.0[|acc|] == r.0[..|acc1|][|acc|] == acc1[|acc|];
  }

  /** Interning a non-empty list interns its first element, then the rest. */
  lemma InternAllTail(t: Tables, acc: seq<string>, vs: seq<Value>)
    requires vs != []
    ensures var t1 := InternValue(t, vs[0]);
      InternAll(t, acc, vs) == InternAll(t1, acc + [PlaceholderOf(t1, vs[0])], vs[1..])
  {
  }

  /** Position k of an interning result holds the placeholder its final table gives v. */
  predicate Placed(r: (seq<string>, Tables), k: nat, v: Value)
  {
    k < |r.0| && StringOf(v) in Keys(r.1.values) && r.0[k] == PlaceholderOf(r.1, v)
  }

  /** Interning the first element before the rest leaves every later placement as it was. */
  lemma PlacedKept(t: Tables, acc: seq<string>, vs: seq<Value>, i: nat, k: nat)
    requires 0 < i < |vs|
    requires var t1 := InternValue(t, vs[0]);
      Placed(InternAll(t1, acc + [PlaceholderOf(t1, vs[0])], vs[1..]), k, vs[1..][i - 1])
    ensures Placed(InternAll(t, acc, vs), k, vs[i])
  {
    assert vs[1..][i - 1] == vs[i];
    InternAllTail(t, acc, vs);
  }

  /** Element i of the list lands at position k = |acc| + i of the placeholders, as the final table numbers it. */
  lemma {:induction false} InternAllAt(t: Tables, acc: seq<string>, vs: seq<Value>, i: nat, k: nat)
    requires i < |vs| && k == |acc| + i
    ensures Placed(InternAll(t, acc, vs), k, vs[i])
    decreases i, 1
  {
    if i == 0 {
      InternAllHead(t, acc, vs);
    } else {
      InternAllAtLater(t, acc, vs, i, k);
    }
  }

  /** The step of InternAllAt past the first element: element i of vs is element i - 1 of its tail. */
  lemma {:induction false} InternAllAtLater(t: Tables, acc: seq<string>, vs: seq<Value>, i: nat, k: nat)
    requires 0 < i < |vs| && k == |acc| + i
    ensures Placed(InternAll(t, acc, vs), k, vs[i])
    decreases i, 0
  {
    var t1 := InternValue(t, vs[0]);
    InternAllAt(t1, acc + [PlaceholderOf(t1, vs[0])], vs[1..], i - 1, k);
    PlacedKept(t, acc, vs, i, k);
  }

  /**
   * The `forEach` of IN and BETWEEN: one placeholder per element, in input
   * order, each the one the final table gives that element.
   */
  lemma InternAllPlaceholders(t: Tables, acc: seq<string>, vs: seq<Value>)
    ensures var r := InternAll(t, acc, vs);
      forall i :: 0 <= i < |vs| ==> StringOf(vs[i]) in Keys(r.1.values) && r.0[|acc| + i] == PlaceholderOf(r.1, vs[i])
  {
    forall i | 0 <= i < |vs|
      ensures var r := InternAll(t, acc, vs);
        StringOf(vs[i]) in Keys(r.1.values) && r.0[|acc| + i] == PlaceholderOf(r.1, vs[i])
    {
      InternAllAt(t, acc, vs, i, |acc| + i);
    }
  }

  // ----- Errors of writeOperatorExpression -----

  /**
   * An operator fails exactly when it is not one of the six comparisons or
   * CONTAINS, IN without an array, or BETWEEN without an array of two; each
   * failure carries the source's message.
   */
  lemma WriteOperatorFails(t: Tables, key: string, op: string, v: Value)
    requires key in t.names
    ensures WriteOperator(t, key, op, v).Err? <==>
      !(IsComparison(op) || op == "CONTAINS" || (op == "IN" && v.Arr?)
        || (op == "BETWEEN" && v.Arr? && |v.items| == 2))
    ensures op == "IN" && !v.Arr? ==> WriteOperator(t, key, op, v) == Err(InRequiresArray(key))
    ensures op == "BETWEEN" && !(v.Arr? && |v.items| == 2) ==> WriteOperator(t, key, op, v) == Err(BetweenRequiresPair(key))
    ensures !IsComparison(op) && op !in {"IN", "BETWEEN", "CONTAINS"} ==>
      WriteOperator(t, key, op, v) == Err(InvalidOperator(op, key))
  {
  }

  /** A comparison interns its operand and writes `#a op :p`. */
  lemma ComparisonOperand(t: Tables, key: string, op: string, v: Value)
    requires key in t.names && IsComparison(op)
    ensures var t1 := InternValue(t, v);
      WriteOperator(t, key, op, v) == Ok(Out(AliasOf(t, key) + " " + op + " " + PlaceholderOf(t1, v), t1))
  {
  }

  /** CONTAINS interns its operand and writes `contains ( #a, :p )`. */
  lemma ContainsOperand(t: Tables, key: string, v: Value)
    requires key in t.names
    ensures var t1 := InternValue(t, v);
      WriteOperator(t, key, "CONTAINS", v) == Ok(Out("contains ( " + AliasOf(t, key) + ", " + PlaceholderOf(t1, v) + " )", t1))
  {
  }

  /** IN interns its operands in order. */
  lemma InOperands(t: Tables, key: string, items: seq<Value>)
    requires key in t.names
    ensures var r := InternAll(t, [], items);
      WriteOperator(t, key, "IN", Arr(items)) == Ok(Out(AliasOf(t, key) + " IN (" + Join(r.0, ", ") + ")", r.1))
  {
  }

  /** BETWEEN interns its two operands in order. */
  lemma BetweenOperands(t: Tables, key: string, operands: seq<Value>)
    requires key in t.names && |operands| == 2
    ensures var r := InternAll(t, [], operands);
      WriteOperator(t, key, "BETWEEN", Arr(operands))
        == Ok(Out(AliasOf(t, key) + " BETWEEN " + r.0[0] + " AND " + r.0[1], r.1))
  {
  }

  /** Only the names table decides an alias. */
  lemma AliasOfNames(t: Tables, t': Tables, key: string)
    requires key in t.names && t'.names == t.names
    ensures AliasOf(t', key) == AliasOf(t, key)
  {
  }

  /**
   * IN yields `#a IN (:p1, :p2, …)`: the alias of the key and, in input order,
   * the placeholder the final table gives each element.
   */
  lemma InText(t: Tables, key: string, items: seq<Value>)
    requires key in t.names
    ensures var r := WriteOperator(t, key, "IN", Arr(items));
      && r.Ok?
      && (forall i :: 0 <= i < |items| ==> StringOf(items[i]) in Keys(r.value.tables.values))
      && r.value.text == AliasOf(r.value.tables, key) + " IN ("
           + Join(seq(|items|, i requires 0 <= i < |items| => PlaceholderOf(r.value.tables, items[i])), ", ") + ")"
  {
    var r := InternAll(t, [], items);
    InOperands(t, key, items);
    AliasOfNames(t, r.1, key);
    InternAllPlaceholders(t, [], items);
    assert r.0 == seq(|items|, i requires 0 <= i < |items| => PlaceholderOf(r.1, items[i]));
  }

  /** BETWEEN yields `#a BETWEEN :p AND :q` for its two operands, in order. */
  lemma BetweenText(t: Tables, key: string, operands: seq<Value>)
    requires key in t.names && |operands| == 2
    ensures var r := WriteOperator(t, key, "BETWEEN", Arr(operands));
      && r.Ok?
      && StringOf(operands[0]) in Keys(r.value.tables.values) && StringOf(operands[1]) in Keys(r.value.tables.values)
      && r.value.text == AliasOf(r.value.tables, key) + " BETWEEN " + PlaceholderOf(r.value.tables, operands[0])
           + " AND " + PlaceholderOf(r.value.tables, operands[1])
  {
    var r := InternAll(t, [], operands);
    BetweenOperands(t, key, operands);
    AliasOfNames(t, r.1, key);
    InternAllAt(t, [], operands, 0, 0);
    InternAllAt(t, [], operands, 1, 1);
  }

  // ----- The tables a compile leaves behind -----

  /** The attribute names a definition mentions: every key other than AND, OR and NOT, reached as the compiler walks. */
  function NamesOf(key: string, def: Value): set<string>
    decreases Size(def), if IsSpecialKey(key) then 2 else 0, 0
  {
    if key == "AND" || key == "OR" then
      if def.Arr? then NamesOfItems(def.items) else {}
    else if key == "NOT" then
      OwnEntriesWeight(def);
      NamesOfEntries(OwnEntries(def))
    else
      {key}
  }

  function NamesOfEntries(es: seq<(string, Value)>): set<string>
    decreases MaxWeight(es), 1, |es|
  {
    if es == [] then {} else NamesOf(es[0].0, es[0].1) + NamesOfEntries(es[1..])
  }

  function NamesOfItems(items: seq<Value>): set<string>
    decreases SizeOfItems(items), 2, |items|
  {
    if items == [] then {}
    else
      OwnEntriesWeight(items[0]);
      NamesOfEntries(OwnEntries(items[0])) + NamesOfItems(items[1..])
  }

  /** An operator leaves the names alone, only appends values, and never repeats a value key. */
  lemma WriteOperatorTables(t: Tables, key: string, op: string, v: Value)
    requires key in t.names
    ensures var r := WriteOperator(t, key, op, v);
      r.Ok? ==> Extends(t, r.value.tables) && (WellFormed(t) ==> WellFormed(r.value.tables))
  {
    if IsComparison(op) || op == "CONTAINS" {
      ValueInterning(t, v);
    } else if v.Arr? {
      InternAllTables(t, [], v.items);
    }
  }

  lemma {:induction false} OperatorsFromTables(t: Tables, acc: seq<string>, key: string, ops: seq<(string, Value)>)
    requires key in t.names
    ensures var r := OperatorsFrom(t, acc, key, ops);
      r.Ok? ==> Extends(t, r.value.tables) && (WellFormed(t) ==> WellFormed(r.value.tables))
    decreases |ops|
  {
    if ops != [] {
      var o := WriteOperator(t, key, ops[0].0, ops[0].1);
      WriteOperatorTables(t, key, ops[0].0, ops[0].1);
      if o.Ok? {
        OperatorsFromTables(o.value.tables, acc + [o.value.text], key, ops[1..]);
        if OperatorsFrom(t, acc, key, ops).Ok? {
          ExtendsTransitive(t, o.value.tables, OperatorsFrom(t, acc, key, ops).value.tables);
        }
      }
    }
  }

  /** The operator loop gives one piece per operator after the pieces it started with. */
  lemma {:induction false} OperatorsFromCount(t: Tables, acc: seq<string>, key: string, ops: seq<(string, Value)>)
    requires key in t.names
    ensures var r := OperatorsFrom(t, acc, key, ops);
      r.Ok? ==> |r.value.texts| == |acc| + |ops| && r.value.texts[..|acc|] == acc
    decreases |ops|
  {
    if ops != [] {
      var o := WriteOperator(t, key, ops[0].0, ops[0].1);
      if o.Ok? {
        var acc1 := acc + [o.value.text];
        OperatorsFromCount(o.value.tables, acc1, key, ops[1..]);
        var r := OperatorsFrom(t, acc, key, ops);
        if r.Ok? {
          assert r.value.texts[..|acc|] == acc1[..|acc|];
        }
      }
    }
  }

  /**
   * Piece k of the operator loop over ops, started with acc, is operator i
   * written against the tables the operators before it left behind.
   */
  predicate OperatorPiece(t: Tables, acc: seq<string>, key: string, ops: seq<(string, Value)>, i: nat, k: nat)
    requires key in t.names && i < |ops|
  {
    var r := OperatorsFrom(t, acc, key, ops);
    r.Ok? ==>
      var before := OperatorsFrom(t, acc, key, ops[..i]);
      && before.Ok?
      && var o := WriteOperator(before.value.tables, key, ops[i].0, ops[i].1);
      && o.Ok? && k < |r.value.texts| && r.value.texts[k] == o.value.text
  }

  lemma OperatorPieceFirst(t: Tables, acc: seq<string>, key: string, ops: seq<(string, Value)>)
    requires key in t.names && ops != []
    ensures OperatorPiece(t, acc, key, ops, 0, |acc|)
  {
    assert ops[..0] == [];
    assert OperatorsFrom(t, acc, key, ops[..0]) == Ok(Outs(acc, t));
    var o := WriteOperator(t, key, ops[0].0, ops[0].1);
    if o.Ok? {
      var acc1 := acc + [o.value.text];
      var r := OperatorsFrom(o.value.tables, acc1, key, ops[1..]);
      assert OperatorsFrom(t, acc, key, ops) == r;
      OperatorsFromCount(o.value.tables, acc1, key, ops[1..]);
      if r.Ok? {
        assert r.value.texts[|acc|] == r.value.texts[..|acc1|][|acc|];
      }
    }
  }

  lemma OperatorPieceKept(t: Tables, acc: seq<string>, key: string, ops: seq<(string, Value)>, i: nat, k: nat)
    requires key in t.names && 0 < i < |ops|
    requires var o := WriteOperator(t, key, ops[0].0, ops[0].1);
      o.Ok? ==> OperatorPiece(o.value.tables, acc + [o.value.text], key, ops[1..], i - 1, k)
    ensures OperatorPiece(t, acc, key, ops, i, k)
  {
    assert ops[..i][0] == ops[0] && ops[..i][1..] == ops[1..][..i - 1];
    assert ops[1..][i - 1] == ops[i];
  }

  /** Piece |acc| + i of the operator loop is operator i, written after the operators before it. */
  lemma {:induction false} OperatorsFromAt(t: Tables, acc: seq<string>, key: string, ops: seq<(string, Value)>, i: nat, k: nat)
    requires key in t.names && i < |ops| && k == |acc| + i
    ensures OperatorPiece(t, acc, key, ops, i, k)
    decreases i
  {
    if i == 0 {
      OperatorPieceFirst(t, acc, key, ops);
    } else {
      var o := WriteOperator(t, key, ops[0].0, ops[0].1);
      if o.Ok? {
        OperatorsFromAt(o.value.tables, acc + [o.value.text], key, ops[1..], i - 1, k);
      }
      OperatorPieceKept(t, acc, key, ops, i, k);
    }
  }

  /**
   * Piece k of the loop over the keys es, started with acc, is key i compiled
   * against the tables the keys before it left behind.
   */
  predicate EntryPiece(t: Tables, acc: seq<string>, es: seq<(string, Value)>, i: nat, k: nat)
    requires i < |es|
  {
    var r := EntriesFrom(t, acc, es);
    r.Ok? ==>
      var before := EntriesFrom(t, acc, es[..i]);
      && before.Ok?
      && var o := Expr(before.value.tables, es[i].0, es[i].1);
      && o.Ok? && k < |r.value.texts| && r.value.texts[k] == o.value.text
  }

  lemma EntryPieceFirst(t: Tables, acc: seq<string>, es: seq<(string, Value)>)
    requires es != []
    ensures EntryPiece(t, acc, es, 0, |acc|)
  {
    assert es[..0] == [];
    assert EntriesFrom(t, acc, es[..0]) == Ok(Outs(acc, t));
    var o := Expr(t, es[0].0, es[0].1);
    if o.Ok? {
      var acc1 := acc + [o.value.text];
      var r := EntriesFrom(o.value.tables, acc1, es[1..]);
      assert EntriesFrom(t, acc, es) == r;
      EntriesFromTables(o.value.tables, acc1, es[1..]);
      if r.Ok? {
        assert r.value.texts[|acc|] == r.value.texts[..|acc1|][|acc|];
      }
    }
  }

  lemma EntryPieceKept(t: Tables, acc: seq<string>, es: seq<(string, Value)>, i: nat, k: nat)
    requires 0 < i < |es|
    requires var o := Expr(t, es[0].0, es[0].1);
      o.Ok? ==> EntryPiece(o.value.tables, acc + [o.value.text], es[1..], i - 1, k)
    ensures EntryPiece(t, acc, es, i, k)
  {
    assert es[..i][0] == es[0] && es[..i][1..] == es[1..][..i - 1];
    assert es[1..][i - 1] == es[i];
  }

  /** Piece |acc| + i of the loop over a definition's keys is key i, compiled after the keys before it. */
  lemma {:induction false} EntriesFromAt(t: Tables, acc: seq<string>, es: seq<(string, Value)>, i: nat, k: nat)
    requires i < |es| && k == |acc| + i
    ensures EntryPiece(t, acc, es, i, k)
    decreases i
  {
    if i == 0 {
      EntryPieceFirst(t, acc, es);
    } else {
      var o := Expr(t, es[0].0, es[0].1);
      if o.Ok? {
        EntriesFromAt(o.value.tables, acc + [o.value.text], es[1..], i - 1, k);
      }
      EntryPieceKept(t, acc, es, i, k);
    }
  }

  /**
   * A successful compile of one key appends to the tables, keeps them free of
   * repeats, and leaves exactly the names of the definition added to the names
   * table (for AND and OR too, whose text is discarded).
   */
  lemma {:induction false} ExprTables(t: Tables, key: string, def: Value)
    ensures var r := Expr(t, key, def);
      r.Ok? ==>
        && Extends(t, r.value.tables)
        && (WellFormed(t) ==> WellFormed(r.value.tables))
        && Elems(r.value.tables.names) == Elems(t.names) + NamesOf(key, def)
    decreases Size(def), if IsSpecialKey(key) then 2 else 0, 0
  {
    if key == "AND" || key == "OR" {
      if def.Arr? {
        CompositeTables(t, def.items);
      }
    } else if key == "NOT" {
      OwnEntriesWeight(def);
      EntriesFromTables(t, [], OwnEntries(def));
    } else {
      var t1 := t.(names := WithName(t.names, key));
      NameInterning(t, key);
      var r := Expr(t, key, def);
      if IsObjectType(def) {
        OperatorsFromTables(t1, [], key, OwnEntries(def));
      } else {
        WriteOperatorTables(t1, key, "=", def);
      }
      if r.Ok? {
        ExtendsTransitive(t, t1, r.value.tables);
        assert Elems(t1.names) == Elems(t.names) + {key};
      }
    }
  }

  /** The `for…in` over a definition: one piece per key, and the names of every key interned. */
  lemma {:induction false} EntriesFromTables(t: Tables, acc: seq<string>, es: seq<(string, Value)>)
    ensures var r := EntriesFrom(t, acc, es);
      r.Ok? ==>
        && |r.value.texts| == |acc| + |es| && r.value.texts[..|acc|] == acc
        && Extends(t, r.value.tables)
        && (WellFormed(t) ==> WellFormed(r.value.tables))
        && Elems(r.value.tables.names) == Elems(t.names) + NamesOfEntries(es)
    decreases MaxWeight(es), 1, |es|
  {
    if es != [] {
      var o := Expr(t, es[0].0, es[0].1);
      ExprTables(t, es[0].0, es[0].1);
      if o.Ok? {
        var acc1 := acc + [o.value.text];
        EntriesFromTables(o.value.tables, acc1, es[1..]);
        var r := EntriesFrom(t, acc, es);
        if r.Ok? {
          ExtendsTransitive(t, o.value.tables, r.value.tables);
          assert r.value.texts[..|acc|] == acc1[..|acc|];
        }
      }
    }
  }

  /** The sub-definitions of AND and OR, compiled in order for their effect on the tables. */
  lemma {:induction false} CompositeTables(t: Tables, items: seq<Value>)
    ensures var r := Composite(t, items);
      r.Ok? ==>
        && Extends(t, r.value)
        && (WellFormed(t) ==> WellFormed(r.value))
        && Elems(r.value.names) == Elems(t.names) + NamesOfItems(items)
    decreases SizeOfItems(items), 2, |items|
  {
    if items != [] {
      OwnEntriesWeight(items[0]);
      var outs := EntriesFrom(t, [], OwnEntries(items[0]));
      EntriesFromTables(t, [], OwnEntries(items[0]));
      if outs.Ok? {
        CompositeTables(outs.value.tables, items[1..]);
        var r := Composite(t, items);
        if r.Ok? {
          ExtendsTransitive(t, outs.value.tables, r.value);
        }
      }
    }
  }

  // ----- The values a compile interns -----

  /** The value keys one operator interns: each element of an IN or BETWEEN array, otherwise its operand. */
  function OperandKeys(op: string, v: Value): set<string>
  {
    if (op == "IN" || op == "BETWEEN") && v.Arr? then Elems(Keys(v.items)) else {StringOf(v)}
  }

  function OperatorsKeys(ops: seq<(string, Value)>): set<string>
  {
    if ops == [] then {} else OperandKeys(ops[0].0, ops[0].1) + OperatorsKeys(ops[1..])
  }

  /**
   * The value keys (`String(v)`) a definition mentions: every operand of every
   * attribute, reached as the compiler walks, inside AND, OR and NOT too.
   */
  function ValueKeysOf(key: string, def: Value): set<string>
    decreases Size(def), if IsSpecialKey(key) then 2 else 0, 0
  {
    if key == "AND" || key == "OR" then
      if def.Arr? then ValueKeysOfItems(def.items) else {}
    else if key == "NOT" then
      OwnEntriesWeight(def);
      ValueKeysOfEntries(OwnEntries(def))
    else if IsObjectType(def) then
      OperatorsKeys(OwnEntries(def))
    else
      {StringOf(def)}
  }

  function ValueKeysOfEntries(es: seq<(string, Value)>): set<string>
    decreases MaxWeight(es), 1, |es|
  {
    if es == [] then {} else ValueKeysOf(es[0].0, es[0].1) + ValueKeysOfEntries(es[1..])
  }

  function ValueKeysOfItems(items: seq<Value>): set<string>
    decreases SizeOfItems(items), 2, |items|
  {
    if items == [] then {}
    else
      OwnEntriesWeight(items[0]);
      ValueKeysOfEntries(OwnEntries(items[0])) + ValueKeysOfItems(items[1..])
  }

  /** Interning a value adds its key to the value keys and nothing else. */
  lemma ValueKeysInterned(t: Tables, v: Value)
    ensures Elems(Keys(InternValue(t, v).values)) == Elems(Keys(t.values)) + {StringOf(v)}
  {
    if StringOf(v) !in Keys(t.values) {
      KeysAppended(t.values, v);
    }
  }

  /** The `forEach` of IN and BETWEEN adds the keys of its elements and nothing else. */
  lemma {:induction false} InternAllKeys(t: Tables, acc: seq<string>, vs: seq<Value>)
    ensures Elems(Keys(InternAll(t, acc, vs).1.values)) == Elems(Keys(t.values)) + Elems(Keys(vs))
    decreases |vs|
  {
    if vs != [] {
      var t1 := InternValue(t, vs[0]);
      ValueKeysInterned(t, vs[0]);
      InternAllKeys(t1, acc + [PlaceholderOf(t1, vs[0])], vs[1..]);
      assert Keys(vs) == [StringOf(vs[0])] + Keys(vs[1..]);
    }
  }

  /** An operator adds exactly the keys of its operands to the value keys. */
  lemma WriteOperatorValues(t: Tables, key: string, op: string, v: Value)
    requires key in t.names
    ensures var r := WriteOperator(t, key, op, v);
      r.Ok? ==> Elems(Keys(r.value.tables.values)) == Elems(Keys(t.values)) + OperandKeys(op, v)
  {
    if IsComparison(op) || op == "CONTAINS" {
      ValueKeysInterned(t, v);
    } else if v.Arr? {
      InternAllKeys(t, [], v.items);
    }
  }

  lemma {:induction false} OperatorsFromValues(t: Tables, acc: seq<string>, key: string, ops: seq<(string, Value)>)
    requires key in t.names
    ensures var r := OperatorsFrom(t, acc, key, ops);
      r.Ok? ==> Elems(Keys(r.value.tables.values)) == Elems(Keys(t.values)) + OperatorsKeys(ops)
    decreases |ops|
  {
    if ops != [] {
      var o := WriteOperator(t, key, ops[0].0, ops[0].1);
      WriteOperatorValues(t, key, ops[0].0, ops[0].1);
      if o.Ok? {
        OperatorsFromValues(o.value.tables, acc + [o.value.text], key, ops[1..]);
      }
    }
  }

  /** Compiling one key adds exactly the keys of the values its definition mentions, for AND and OR too. */
  lemma {:induction false} ExprValues(t: Tables, key: string, def: Value)
    ensures var r := Expr(t, key, def);
      r.Ok? ==> Elems(Keys(r.value.tables.values)) == Elems(Keys(t.values)) + ValueKeysOf(key, def)
    decreases Size(def), if IsSpecialKey(key) then 2 else 0, 0
  {
    if key == "AND" || key == "OR" {
      if def.Arr? {
        CompositeValues(t, def.items);
      }
    } else if key == "NOT" {
      OwnEntriesWeight(def);
      EntriesFromValues(t, [], OwnEntries(def));
    } else {
      var t1 := t.(names := WithName(t.names, key));
      if IsObjectType(def) {
        OperatorsFromValues(t1, [], key, OwnEntries(def));
      } else {
        WriteOperatorValues(t1, key, "=", def);
      }
    }
  }

  lemma {:induction false} EntriesFromValues(t: Tables, acc: seq<string>, es: seq<(string, Value)>)
    ensures var r := EntriesFrom(t, acc, es);
      r.Ok? ==> Elems(Keys(r.value.tables.values)) == Elems(Keys(t.values)) + ValueKeysOfEntries(es)
    decreases MaxWeight(es), 1, |es|
  {
    if es != [] {
      var o := Expr(t, es[0].0, es[0].1);
      ExprValues(t, es[0].0, es[0].1);
      if o.Ok? {
        EntriesFromValues(o.value.tables, acc + [o.value.text], es[1..]);
      }
    }
  }

  /** The sub-definitions of AND and OR intern all their values, although their text is dropped. */
  lemma {:induction false} CompositeValues(t: Tables, items: seq<Value>)
    ensures var r := Composite(t, items);
      r.Ok? ==> Elems(Keys(r.value.values)) == Elems(Keys(t.values)) + ValueKeysOfItems(items)
    decreases SizeOfItems(items), 2, |items|
  {
    if items != [] {
      OwnEntriesWeight(items[0]);
      var outs := EntriesFrom(t, [], OwnEntries(items[0]));
      EntriesFromValues(t, [], OwnEntries(items[0]));
      if outs.Ok? {
        CompositeValues(outs.value.tables, items[1..]);
      }
    }
  }

  // ----- The composite forms -----

  /**
   * AND and OR: anything but an array fails; an array compiles to the text
   * `(  )` while every name and every value of every sub-definition is still
   * interned.
   */
  lemma CompositeDiscardsText(t: Tables, key: string, def: Value)
    requires key == "AND" || key == "OR"
    ensures !def.Arr? ==> Expr(t, key, def) == Err(NotAnArray(key))
    ensures var r := Expr(t, key, def);
      def.Arr? && r.Ok? ==>
        && r.value.text == "(  )"
        && Elems(r.value.tables.names) == Elems(t.names) + NamesOfItems(def.items)
        && Elems(Keys(r.value.tables.values)) == Elems(Keys(t.values)) + ValueKeysOfItems(def.items)
  {
    ExprTables(t, key, def);
    ExprValues(t, key, def);
  }

  /** NOT over a single key is `NOT` and that key's expression. */
  lemma NotSingle(t: Tables, def: Value, key: string, inner: Value)
    requires OwnEntries(def) == [(key, inner)]
    ensures Expr(t, "NOT", def) ==
      match Expr(t, key, inner)
      case Ok(o) => Ok(Out("NOT " + o.text, o.tables))
      case Err(e) => Err(e)
  {
    var es := OwnEntries(def);
    assert es[0].0 == key && es[0].1 == inner && es[1..] == [];
    OwnEntriesWeight(def);
    var o := Expr(t, key, inner);
    if o.Ok? {
      assert EntriesFrom(o.value.tables, [o.value.text], []) == Ok(Outs([o.value.text], o.value.tables));
      assert EntriesFrom(t, [], es) == EntriesFrom(o.value.tables, [] + [o.value.text], es[1..]);
    }
  }

  /**
   * NOT over any number of keys other than one: the pieces of the keys, one
   * per key, ANDed inside parentheses (piece i is given by EntriesFromAt).
   */
  lemma NotSeveral(t: Tables, def: Value)
    requires |OwnEntries(def)| != 1
    ensures var r := Expr(t, "NOT", def);
      var outs := EntriesFrom(t, [], OwnEntries(def));
      && (r.Ok? <==> outs.Ok?)
      && (r.Err? ==> r.error == outs.error)
      && (r.Ok? ==>
            && |outs.value.texts| == |OwnEntries(def)|
            && r.value == Out("NOT ( " + Join(outs.value.texts, " AND ") + " )", outs.value.tables))
  {
    OwnEntriesWeight(def);
    EntriesFromTables(t, [], OwnEntries(def));
  }

  /**
   * An operator object with one operator is that operator's expression; with
   * any other number the pieces are ANDed inside parentheses.
   */
  lemma OperatorsObjectShape(t: Tables, key: string, def: Value)
    requires key in t.names
    ensures OwnEntries(def) == [] ==> OperatorsObject(t, key, def) == Ok(Out("(  )", t))
    ensures |OwnEntries(def)| == 1 ==>
      OperatorsObject(t, key, def) == WriteOperator(t, key, OwnEntries(def)[0].0, OwnEntries(def)[0].1)
    ensures |OwnEntries(def)| > 1 ==>
      var r := OperatorsObject(t, key, def);
      var outs := OperatorsFrom(t, [], key, OwnEntries(def));
      && (r.Ok? <==> outs.Ok?)
      && (r.Err? ==> r.error == outs.error)
      && (r.Ok? ==>
            && |outs.value.texts| == |OwnEntries(def)|
            && r.value == Out("( " + Join(outs.value.texts, " AND ") + " )", outs.value.tables))
  {
    var es := OwnEntries(def);
    OperatorsFromCount(t, [], key, es);
    if es == [] {
      assert OperatorsFrom(t, [], key, es) == Ok(Outs([], t));
      assert "( " + Join([], " AND ") + " )" == "(  )";
    }
    if |es| == 1 {
      assert es[1..] == [];
      var o := WriteOperator(t, key, es[0].0, es[0].1);
      if o.Ok? {
        assert OperatorsFrom(o.value.tables, [o.value.text], key, []) == Ok(Outs([o.value.text], o.value.tables));
        assert OperatorsFrom(t, [], key, es) == OperatorsFrom(o.value.tables, [] + [o.value.text], key, es[1..]);
      }
    }
  }

  // ----- The whole compile -----

  /** A condition with no keys (absent, or `{}`) compiles to the empty expression and empty tables. */
  lemma CompileEmpty(condition: Value)
    requires OwnEntries(condition) == []
    ensures Compile(condition) == Ok(Compiled("", [], []))
  {
    assert ValueTable([]) == [];
  }

  /** The names table of a table without repeats: entry i is `#(i+1)` and no alias or name repeats. */
  lemma NameTableUnique(names: seq<string>)
    requires Distinct(names)
    ensures var table := NameTable(names);
      && (forall i :: 0 <= i < |table| ==> table[i].0 == Alias(i + 1))
      && (forall i, j :: 0 <= i < j < |table| ==> table[i].0 != table[j].0 && table[i].1 != table[j].1)
      && (set i | 0 <= i < |table| :: table[i].1) == Elems(names)
  {
    var table := NameTable(names);
    forall i, j | 0 <= i < j < |table|
      ensures table[i].0 != table[j].0
    {
      AliasInjective(i + 1, j + 1);
    }
    forall x | x in Elems(names)
      ensures x in (set i | 0 <= i < |table| :: table[i].1)
    {
      var i :| 0 <= i < |names| && names[i] == x;
      assert table[i].1 == x;
    }
  }

  /**
   * The names table a compile returns: entry i is `#(i+1)`, no alias and no
   * name appears twice, and the names are exactly those the condition
   * mentions, so every alias maps back to one attribute name.
   */
  lemma CompileNames(condition: Value)
    ensures var r := Compile(condition);
      r.Ok? ==>
        var table := r.value.expressionAttributeNames;
        && (forall i :: 0 <= i < |table| ==> table[i].0 == Alias(i + 1))
        && (forall i, j :: 0 <= i < j < |table| ==> table[i].0 != table[j].0 && table[i].1 != table[j].1)
        && (set i | 0 <= i < |table| :: table[i].1) == NamesOfEntries(OwnEntries(condition))
  {
    var empty := Tables([], []);
    var outs := EntriesFrom(empty, [], OwnEntries(condition));
    EntriesFromTables(empty, [], OwnEntries(condition));
    if outs.Ok? {
      assert Elems(empty.names) == {};
      NameTableUnique(outs.value.tables.names);
    }
  }

  /**
   * The values table a compile returns: the interned values hold no two with
   * the same key, their keys are exactly those of the values the condition
   * mentions, entry i of the table is `:(i+1)` with no placeholder twice, and
   * the result is the encoding of that table.
   */
  lemma CompileValues(condition: Value)
    ensures var r := Compile(condition);
      var outs := EntriesFrom(Tables([], []), [], OwnEntries(condition));
      r.Ok? ==>
        && outs.Ok?
        && var values := outs.value.tables.values;
        && var table := ValueTable(values);
        && Distinct(Keys(values))
        && Elems(Keys(values)) == ValueKeysOfEntries(OwnEntries(condition))
        && (forall i :: 0 <= i < |table| ==> table[i] == (Placeholder(i + 1), values[i]))
        && (forall i, j :: 0 <= i < j < |table| ==> table[i].0 != table[j].0)
        && Marshal.EncodeItem(Obj(table)) == Ok(Some(r.value.expressionAttributeValues))
  {
    var empty := Tables([], []);
    var outs := EntriesFrom(empty, [], OwnEntries(condition));
    EntriesFromTables(empty, [], OwnEntries(condition));
    EntriesFromValues(empty, [], OwnEntries(condition));
    CompileParts(condition);
    if outs.Ok? {
      assert Elems(Keys(empty.values)) == {};
      ValueTablePlaceholders(outs.value.tables.values);
    }
  }

  /** A successful compile is the loop's pieces joined with AND and its two tables, the values encoded. */
  lemma CompileParts(condition: Value)
    ensures var r := Compile(condition);
      var outs := EntriesFrom(Tables([], []), [], OwnEntries(condition));
      r.Ok? ==>
        && outs.Ok?
        && Marshal.EncodeItem(Obj(ValueTable(outs.value.tables.values))) == Ok(Some(r.value.expressionAttributeValues))
  {
  }

  /** The placeholders of a values table are `:1`, `:2`, … and never repeat. */
  lemma ValueTablePlaceholders(values: seq<Value>)
    ensures var table := ValueTable(values);
      forall i, j :: 0 <= i < j < |table| ==> table[i].0 != table[j].0
  {
    var table := ValueTable(values);
    forall i, j | 0 <= i < j < |table|
      ensures table[i].0 != table[j].0
    {
      PlaceholderInjective(i + 1, j + 1);
    }
  }

  /**
   * The smallest condition, one attribute and a plain operand: `#1 = :1`, with
   * `#1` naming the attribute and `:1` holding the operand.
   */
  lemma CompileLeaf(key: string, v: Value)
    requires !IsSpecialKey(key) && !IsObjectType(v)
    ensures var r := Compile(Obj([(key, v)]));
      && r.Ok?
      && r.value.conditionExpression == "#1 = :1"
      && r.value.expressionAttributeNames == [("#1", key)]
      && Marshal.EncodeItem(Obj([(":1", v)])) == Ok(Some(r.value.expressionAttributeValues))
  {
    var t2 := Tables([key], [v]);
    LeafExpr(key, v);
    assert OwnEntries(Obj([(key, v)])) == [(key, v)];
    assert [(key, v)][1..] == [];
    assert EntriesFrom(Tables([], []), [], [(key, v)]) == EntriesFrom(t2, [] + ["#1 = :1"], []);
    assert Join(["#1 = :1"], " AND ") == "#1 = :1";
    LeafTables(key, v);
    LeafEncodes(v);
    var encoded := Marshal.EncodeItem(Obj(ValueTable([v])));
    assert Compile(Obj([(key, v)])) == Ok(Compiled("#1 = :1", [("#1", key)], encoded.value.value));
  }

  /** A plain operand on a fresh compile interns the name as `#1` and the operand as `:1`. */
  lemma LeafExpr(key: string, v: Value)
    requires !IsSpecialKey(key) && !IsObjectType(v)
    ensures Expr(Tables([], []), key, v) == Ok(Out("#1 = :1", Tables([key], [v])))
  {
    var t1 := Tables([key], []);
    var t2 := Tables([key], [v]);
    assert WithName([], key) == [key];
    assert IndexOf([key], key) == 0;
    assert Keys([v]) == [StringOf(v)];
    assert IndexOf(Keys([v]), StringOf(v)) == 0;
    assert NatText(1) == [Digit(1)] == "1";
    assert Alias(1) == "#1" && Placeholder(1) == ":1";
    assert WithValue([], v) == [v];
    assert AliasOf(t1, key) == "#1";
    assert PlaceholderOf(t2, v) == ":1";
    assert InternValue(t1, v) == t2;
    assert "#1" + " " + "=" + " " + ":1" == "#1 = :1";
    assert WriteOperator(t1, key, "=", v) == Ok(Out("#1 = :1", t2));
  }

  lemma LeafTables(key: string, v: Value)
    ensures NameTable([key]) == [("#1", key)] && ValueTable([v]) == [(":1", v)]
  {
    assert NatText(1) == [Digit(1)] == "1";
    assert Alias(1) == "#1" && Placeholder(1) == ":1";
    assert NameTable([key])[0] == (Alias(1), key);
    assert ValueTable([v])[0] == (Placeholder(1), v);
  }

  /** A values table holding one operand that is not an object encodes without error. */
  lemma LeafEncodes(v: Value)
    requires !IsObjectType(v)
    ensures Marshal.EncodeItem(Obj([(":1", v)])).Ok? && Marshal.EncodeItem(Obj([(":1", v)])).value.Some?
  {
    assert Marshal.EncodeProperty(v).Ok?;
    var table := [(":1", v)];
    assert OwnEntries(Obj(table)) == table && table[1..] == [];
    assert Marshal.EncodeEntries(table).Ok?;
  }
}
