/**
 * mapUpdatesToUpdateExpression: an updates object (`{SET: {…}}`, `{ADD: {…}}`
 * or bare `field: value` pairs) lowered to an UpdateExpression and a values
 * table. Every assigned field gets a fresh placeholder `:i`, counted from 1
 * with no deduplication; the clauses appear in the order each type is first
 * used.
 *
 * The functions describe the result declaratively: the flat list of
 * assignments, the clause order, and each clause's pieces. The class runs the
 * source's loops over a clause dictionary and a running counter and is proved
 * to produce exactly that.
 */
module Update {
  import opened Wrappers
  import opened Text
  import opened Js
  import Marshal
  import opened Condition
  import opened ConditionProperties

  /** One field assignment: the clause it goes in (ADD or SET), the field and its value. */
  datatype Assignment = Assignment(clause: string, field: string, value: Value)

  /** What the compiler returns: the expression and the encoded values table. */
  datatype UpdateCompiled = UpdateCompiled(updateExpression: string, expressionAttributeValues: Marshal.Item)

  /** The clause a top-level key goes in: ADD for ADD, SET for SET and for any other key. */
  function ClauseOf(key: string): string
  {
    if key == "ADD" then "ADD" else "SET"
  }

  /** The text between field and placeholder: nothing for ADD, `=` for SET. */
  function OperatorOf(clause: string): string
  {
    if clause == "ADD" then "" else "="
  }

  /** The assignments of one clause object, one per own property, in `for…in` order. */
  function Tagged(clause: string, es: seq<(string, Value)>): (r: seq<Assignment>)
    ensures |r| == |es|
    ensures forall j :: 0 <= j < |es| ==> r[j] == Assignment(clause, es[j].0, es[j].1)
  {
    seq(|es|, j requires 0 <= j < |es| => Assignment(clause, es[j].0, es[j].1))
  }

  /** The assignments one top-level property asks for: ADD and SET hold a clause object, any other key is an implicit SET. */
  function AssignmentsOf(key: string, v: Value): seq<Assignment>
  {
    if key == "ADD" || key == "SET" then Tagged(key, OwnEntries(v)) else [Assignment("SET", key, v)]
  }

  /** All assignments, in the order the compiler numbers them. */
  function Assignments(es: seq<(string, Value)>): (r: seq<Assignment>)
    ensures forall j :: 0 <= j < |r| ==> r[j].clause == "ADD" || r[j].clause == "SET"
  {
    if es == [] then [] else Assignments(es[..|es| - 1]) + AssignmentsOf(es[|es| - 1].0, es[|es| - 1].1)
  }

  /** Add a clause type to the order unless it is already there. */
  function WithClause(order: seq<string>, clause: string): seq<string>
  {
    if clause in order then order else order + [clause]
  }

  /** The clause types in order of first use; an empty ADD or SET object still opens its clause. */
  function ClauseOrder(es: seq<(string, Value)>): seq<string>
  {
    if es == [] then [] else WithClause(ClauseOrder(es[..|es| - 1]), ClauseOf(es[|es| - 1].0))
  }

  /** The text of an assignment numbered n: `field op :n`. */
  function Piece(a: Assignment, n: nat): string
  {
    a.field + " " + OperatorOf(a.clause) + " " + Placeholder(n)
  }

  /** The pieces of one clause: each of its assignments, numbered by its position among all of them. */
  function PiecesOf(clause: string, assignments: seq<Assignment>): (r: seq<string>)
    ensures |r| <= |assignments|
  {
    if assignments == [] then []
    else
      var last := assignments[|assignments| - 1];
      PiecesOf(clause, assignments[..|assignments| - 1])
        + (if last.clause == clause then [Piece(last, |assignments|)] else [])
  }

  /** The clause dictionary: each clause type in order with its pieces. */
  function Grouped(order: seq<string>, assignments: seq<Assignment>): (groups: seq<(string, seq<string>)>)
    ensures |groups| == |order|
    ensures forall k :: 0 <= k < |order| ==> groups[k] == (order[k], PiecesOf(order[k], assignments))
  {
    seq(|order|, k requires 0 <= k < |order| => (order[k], PiecesOf(order[k], assignments)))
  }

  /** `TYPE e1, e2 ` for each clause, in order. */
  function Render(groups: seq<(string, seq<string>)>): string
  {
    if groups == [] then ""
    else
      var last := groups[|groups| - 1];
      Render(groups[..|groups| - 1]) + last.0 + " " + Join(last.1, ", ") + " "
  }

  /** The values table: placeholder `:(j+1)` holds the value of assignment j. */
  function ValuesTable(assignments: seq<Assignment>): (table: seq<(string, Value)>)
    ensures |table| == |assignments|
    ensures forall j :: 0 <= j < |assignments| ==> table[j] == (Placeholder(j + 1), assignments[j].value)
  {
    seq(|assignments|, j requires 0 <= j < |assignments| => (Placeholder(j + 1), assignments[j].value))
  }

  function UpdateText(es: seq<(string, Value)>): string
  {
    Render(Grouped(ClauseOrder(es), Assignments(es)))
  }

  /** mapUpdatesToUpdateExpression, declaratively. */
  function UpdateExpression(updates: Value): Result<UpdateCompiled, Error>
  {
    var es := OwnEntries(updates);
    Compiled(UpdateText(es), Marshal.EncodeItem(Obj(ValuesTable(Assignments(es)))))
  }

  /** The result: the expression and the encoded values table, or the encoder's error. */
  function Compiled(updateExpression: string, encoded: Result<Option<Marshal.Item>, Error>): Result<UpdateCompiled, Error>
    requires encoded.Ok? ==> encoded.value.Some?
  {
    var values :- encoded;
    Ok(UpdateCompiled(updateExpression, values.value))
  }

  // ----- Properties -----

  /**
   * The clause order has no repeats, holds only ADD and SET, and holds a type
   * exactly when some top-level key goes in that clause.
   */
  lemma {:induction false} ClauseOrderShape(es: seq<(string, Value)>)
    ensures Distinct(ClauseOrder(es))
    ensures forall c :: c in ClauseOrder(es) ==> c == "ADD" || c == "SET"
    ensures forall c :: c in ClauseOrder(es) <==> exists j :: 0 <= j < |es| && ClauseOf(es[j].0) == c
  {
    if es != [] {
      var init := es[..|es| - 1];
      var c := ClauseOf(es[|es| - 1].0);
      ClauseOrderShape(init);
      if c !in ClauseOrder(init) {
        DistinctAppended(ClauseOrder(init), c);
      }
      forall d
        ensures d in ClauseOrder(es) <==> exists j :: 0 <= j < |es| && ClauseOf(es[j].0) == d
      {
        if d in ClauseOrder(init) {
          var j :| 0 <= j < |init| && ClauseOf(init[j].0) == d;
          assert es[j] == init[j];
        }
        if j :| 0 <= j < |es| && ClauseOf(es[j].0) == d {
          if j < |init| {
            assert es[j] == init[j];
          }
        }
      }
    }
  }

  /** Every assignment goes in a clause the order holds. */
  lemma {:induction false} AssignmentsInOrder(es: seq<(string, Value)>)
    ensures forall a :: a in Assignments(es) ==> a.clause in ClauseOrder(es)
  {
    if es != [] {
      var init := es[..|es| - 1];
      AssignmentsInOrder(init);
      var key := es[|es| - 1].0;
      assert forall a :: a in AssignmentsOf(key, es[|es| - 1].1) ==> a.clause == ClauseOf(key);
    }
  }

  /** A clause with no assignments has no pieces. */
  lemma {:induction false} PiecesOfUnused(clause: string, assignments: seq<Assignment>)
    requires forall a :: a in assignments ==> a.clause != clause
    ensures PiecesOf(clause, assignments) == []
  {
    if assignments != [] {
      assert forall a :: a in assignments[..|assignments| - 1] ==> a in assignments;
      PiecesOfUnused(clause, assignments[..|assignments| - 1]);
    }
  }

  /** Every assignment is rendered exactly once: the ADD and SET pieces together number the assignments. */
  lemma {:induction false} PiecesPartition(assignments: seq<Assignment>)
    requires forall a :: a in assignments ==> a.clause == "ADD" || a.clause == "SET"
    ensures |PiecesOf("ADD", assignments)| + |PiecesOf("SET", assignments)| == |assignments|
  {
    if assignments != [] {
      assert forall a :: a in assignments[..|assignments| - 1] ==> a in assignments;
      PiecesPartition(assignments[..|assignments| - 1]);
    }
  }

  /** Every field gets a fresh placeholder: the values table is numbered 1, 2, … with no placeholder twice. */
  lemma PlaceholdersFresh(es: seq<(string, Value)>)
    ensures var table := ValuesTable(Assignments(es));
      && (forall j :: 0 <= j < |table| ==> table[j].0 == Placeholder(j + 1))
      && (forall j, k :: 0 <= j < k < |table| ==> table[j].0 != table[k].0)
  {
    var table := ValuesTable(Assignments(es));
    forall j, k | 0 <= j < k < |table|
      ensures table[j].0 != table[k].0
    {
      PlaceholderInjective(j + 1, k + 1);
    }
  }

  /** A single assignment numbered 1 renders as one clause holding one piece. */
  lemma SingleClause(a: Assignment)
    ensures Render(Grouped([a.clause], [a])) == a.clause + " " + Piece(a, 1) + " "
  {
    var assignments := [a];
    assert assignments[..0] == [];
    assert PiecesOf(a.clause, assignments) == [Piece(a, 1)];
    var groups := Grouped([a.clause], assignments);
    assert groups == [(a.clause, [Piece(a, 1)])];
    assert groups[..0] == [];
  }

  /** Any key other than ADD and SET is an implicit SET: `{f: v}` gives `SET f = :1 `. */
  lemma ImplicitSet(key: string, v: Value)
    requires key != "ADD" && key != "SET"
    ensures UpdateText([(key, v)]) == "SET " + key + " = " + Placeholder(1) + " "
    ensures ValuesTable(Assignments([(key, v)])) == [(Placeholder(1), v)]
  {
    ImplicitSetEntry(key, v);
    SingleClause(Assignment("SET", key, v));
  }

  /** A single entry under any other key becomes one SET assignment, and SET is the only clause. */
  lemma ImplicitSetEntry(key: string, v: Value)
    requires key != "ADD" && key != "SET"
    ensures Assignments([(key, v)]) == [Assignment("SET", key, v)]
    ensures ClauseOrder([(key, v)]) == ["SET"]
  {
    var es := [(key, v)];
    assert es[..0] == [];
  }

  /** An ADD entry has no operator, so field and placeholder are two spaces apart: `ADD f  :1 `. */
  lemma AddSpacing(field: string, v: Value)
    ensures UpdateText([("ADD", Obj([(field, v)]))]) == "ADD " + field + "  " + Placeholder(1) + " "
  {
    var es := [("ADD", Obj([(field, v)]))];
    assert es[..0] == [];
    assert Tagged("ADD", [(field, v)]) == [Assignment("ADD", field, v)];
    assert Assignments(es) == [Assignment("ADD", field, v)];
    assert ClauseOrder(es) == ["ADD"];
    SingleClause(Assignment("ADD", field, v));
  }

  /** An empty ADD or SET object still opens its clause: `{ADD: {}}` gives `ADD  `. */
  lemma EmptyClause(clause: string)
    requires clause == "ADD" || clause == "SET"
    ensures UpdateText([(clause, Obj([]))]) == clause + "  "
  {
    EmptyClauseEntry(clause);
    assert PiecesOf(clause, []) == [];
    var groups := Grouped([clause], []);
    assert groups == [(clause, [])];
    assert groups[..0] == [];
    assert Render(groups[..0]) == "";
    assert Join([], ", ") == "";
  }

  /** An empty ADD or SET object contributes no assignment but still names its clause. */
  lemma EmptyClauseEntry(clause: string)
    requires clause == "ADD" || clause == "SET"
    ensures Assignments([(clause, Obj([]))]) == []
    ensures ClauseOrder([(clause, Obj([]))]) == [clause]
  {
    var es := [(clause, Obj([]))];
    assert es[..0] == [];
    assert Assignments(es[..0]) == [];
    assert ClauseOrder(es[..0]) == [];
  }

  // ----- The compiler as the source runs it -----

  /** A list pushed onto the dictionary entry of one clause type. */
  function Push(groups: seq<(string, seq<string>)>, clause: string, piece: string): (r: seq<(string, seq<string>)>)
    ensures |r| == |groups|
    ensures forall k :: 0 <= k < |groups| ==>
      r[k] == if groups[k].0 == clause then (clause, groups[k].1 + [piece]) else groups[k]
  {
    seq(|groups|, k requires 0 <= k < |groups| =>
      if groups[k].0 == clause then (clause, groups[k].1 + [piece]) else groups[k])
  }

  /** Recording an assignment pushes its piece onto its clause's list. */
  lemma GroupedPush(order: seq<string>, done: seq<Assignment>, a: Assignment)
    ensures Grouped(order, done + [a]) == Push(Grouped(order, done), a.clause, Piece(a, |done| + 1))
  {
    var ds := done + [a];
    assert ds[..|done|] == done;
    var l := Grouped(order, ds);
    var r := Push(Grouped(order, done), a.clause, Piece(a, |done| + 1));
    forall k | 0 <= k < |order|
      ensures l[k] == r[k]
    {
      assert PiecesOf(order[k], ds) == PiecesOf(order[k], done) + (if a.clause == order[k] then [Piece(a, |ds|)] else []);
      assert l[k] == (order[k], PiecesOf(order[k], ds));
      assert Grouped(order, done)[k] == (order[k], PiecesOf(order[k], done));
      if a.clause != order[k] {
        assert PiecesOf(order[k], done) + [] == PiecesOf(order[k], done);
      }
    }
  }

  /** Recording an assignment appends its value under the next placeholder. */
  lemma ValuesTableAppend(done: seq<Assignment>, a: Assignment)
    ensures ValuesTable(done + [a]) == ValuesTable(done) + [(Placeholder(|done| + 1), a.value)]
  {
    var l := ValuesTable(done + [a]);
    var r := ValuesTable(done) + [(Placeholder(|done| + 1), a.value)];
    forall j | 0 <= j < |l|
      ensures l[j] == r[j]
    {
      if j < |done| {
        assert (done + [a])[j] == done[j];
      }
    }
  }

  /** Opening a clause that has no assignments yet adds it with an empty list. */
  lemma GroupedOpen(order: seq<string>, done: seq<Assignment>, clause: string)
    requires forall a :: a in done ==> a.clause != clause
    ensures Grouped(order + [clause], done) == Grouped(order, done) + [(clause, [])]
  {
    PiecesOfUnused(clause, done);
  }

  /** `updateExpressions[type]` is set: the dictionary has an entry for the clause type. */
  predicate Opened(groups: seq<(string, seq<string>)>, clause: string)
  {
    exists k :: 0 <= k < |groups| && groups[k].0 == clause
  }

  /** The closure state of one call: the clause dictionary, the values table and the counter `i`. */
  class UpdateCompiler {
    var updateExpressions: seq<(string, seq<string>)>
    var expressionAttributeValues: seq<(string, Value)>
    var i: nat
    /** The clause types opened so far and the assignments made so far. */
    ghost var order: seq<string>
    ghost var done: seq<Assignment>

    /** The counter is one past the last placeholder; the dictionary and table are those of the assignments so far. */
    ghost predicate Valid()
      reads this
    {
      && i == |done| + 1
      && Distinct(order)
      && (forall a :: a in done ==> a.clause in order)
      && updateExpressions == Grouped(order, done)
      && expressionAttributeValues == ValuesTable(done)
    }

    constructor ()
      ensures Valid() && order == [] && done == []
    {
      updateExpressions := [];
      expressionAttributeValues := [];
      i := 1;
      order := [];
      done := [];
    }

    /** `updateExpressions[type] = []` unless the clause type already has an entry. */
    method Open(clause: string)
      requires Valid()
      modifies this
      ensures Valid() && clause in order
      ensures order == WithClause(old(order), clause) && done == old(done)
    {
      if !Opened(updateExpressions, clause) {
        assert clause !in order;
        GroupedOpen(order, done, clause);
        DistinctAppended(order, clause);
        updateExpressions := updateExpressions + [(clause, [])];
        order := order + [clause];
      }
    }

    /** One property of an addition: its value goes in under `:i`, its piece onto the clause's list, and `i` moves on. */
    method Record(clause: string, expression: string, key: string, v: Value)
      requires Valid() && clause in order && expression == OperatorOf(clause)
      modifies this
      ensures Valid()
      ensures order == old(order) && done == old(done) + [Assignment(clause, key, v)]
    {
      var a := Assignment(clause, key, v);
      GroupedPush(order, done, a);
      ValuesTableAppend(done, a);
      expressionAttributeValues := expressionAttributeValues + [(Placeholder(i), v)];
      updateExpressions := Push(updateExpressions, clause, key + " " + expression + " " + Placeholder(i));
      done := done + [a];
      i := i + 1;
    }

    /** addToUpdateExpressions: open the clause if new, then number and record each property of the addition. */
    method AddToUpdateExpressions(clause: string, expression: string, addition: Value)
      requires Valid() && expression == OperatorOf(clause)
      modifies this
      ensures Valid()
      ensures order == WithClause(old(order), clause)
      ensures done == old(done) + Tagged(clause, OwnEntries(addition))
    {
      Open(clause);
      var entries := OwnEntries(addition);
      var k := 0;
      while k < |entries|
        invariant 0 <= k <= |entries|
        invariant Valid() && clause in order
        invariant order == WithClause(old(order), clause)
        invariant done == old(done) + Tagged(clause, entries[..k])
      {
        TaggedAppend(old(done), clause, entries, k);
        Record(clause, expression, entries[k].0, entries[k].1);
        k := k + 1;
      }
      assert entries[..k] == entries;
    }
  }

  /** Taking one more property of a clause object appends its assignment. */
  lemma TaggedStep(clause: string, es: seq<(string, Value)>, k: nat)
    requires k < |es|
    ensures Tagged(clause, es[..k + 1]) == Tagged(clause, es[..k]) + [Assignment(clause, es[k].0, es[k].1)]
  {
    var l := Tagged(clause, es[..k + 1]);
    var r := Tagged(clause, es[..k]) + [Assignment(clause, es[k].0, es[k].1)];
    assert |l| == |r|;
    forall j | 0 <= j < |l|
      ensures l[j] == r[j]
    {
      if j < k {
        assert es[..k + 1][j] == es[..k][j];
      }
    }
  }

  /** The loop step of addToUpdateExpressions: the assignments made so far gain property k's. */
  lemma TaggedAppend(before: seq<Assignment>, clause: string, es: seq<(string, Value)>, k: nat)
    requires k < |es|
    ensures before + Tagged(clause, es[..k + 1]) == before + Tagged(clause, es[..k]) + [Assignment(clause, es[k].0, es[k].1)]
  {
    TaggedStep(clause, es, k);
  }

  /** Taking one more top-level property extends the clause order and the assignments by that property's share. */
  lemma PrefixStep(es: seq<(string, Value)>, n: nat)
    requires n < |es|
    ensures ClauseOrder(es[..n + 1]) == WithClause(ClauseOrder(es[..n]), ClauseOf(es[n].0))
    ensures Assignments(es[..n + 1]) == Assignments(es[..n]) + AssignmentsOf(es[n].0, es[n].1)
  {
    assert es[..n + 1][..n] == es[..n];
  }

  /** One top-level property of the updates: the `switch` on its key. */
  method AddUpdate(compiler: UpdateCompiler, key: string, v: Value)
    requires compiler.Valid()
    modifies compiler
    ensures compiler.Valid()
    ensures compiler.order == WithClause(old(compiler.order), ClauseOf(key))
    ensures compiler.done == old(compiler.done) + AssignmentsOf(key, v)
  {
    if key == "ADD" {
      compiler.AddToUpdateExpressions("ADD", "", v);
    } else if key == "SET" {
      compiler.AddToUpdateExpressions("SET", "=", v);
    } else {
      var setExpressions := Obj([(key, v)]);
      assert Tagged("SET", OwnEntries(setExpressions)) == [Assignment("SET", key, v)];
      compiler.AddToUpdateExpressions("SET", "=", setExpressions);
    }
  }

  /** The final `for…in` over the clause dictionary: `TYPE e1, e2 ` per clause type. */
  method WriteClauses(groups: seq<(string, seq<string>)>) returns (updateExpression: string)
    ensures updateExpression == Render(groups)
  {
    updateExpression := "";
    var k := 0;
    while k < |groups|
      invariant 0 <= k <= |groups|
      invariant updateExpression == Render(groups[..k])
    {
      updateExpression := updateExpression + groups[k].0 + " " + Join(groups[k].1, ", ") + " ";
      k := k + 1;
      assert groups[..k][..k - 1] == groups[..k - 1];
    }
    assert groups[..k] == groups;
  }

  /** The `for…in` over the updates: every top-level property handed to the switch, in order. */
  method AddUpdates(entries: seq<(string, Value)>) returns (compiler: UpdateCompiler)
    ensures fresh(compiler)
    ensures compiler.updateExpressions == Grouped(ClauseOrder(entries), Assignments(entries))
    ensures compiler.expressionAttributeValues == ValuesTable(Assignments(entries))
  {
    compiler := new UpdateCompiler();
    var n := 0;
    while n < |entries|
      invariant 0 <= n <= |entries|
      invariant fresh(compiler) && compiler.Valid()
      invariant compiler.order == ClauseOrder(entries[..n])
      invariant compiler.done == Assignments(entries[..n])
    {
      PrefixStep(entries, n);
      AddUpdate(compiler, entries[n].0, entries[n].1);
      n := n + 1;
    }
    assert entries[..n] == entries;
  }

  /** mapUpdatesToUpdateExpression: number every assignment, then write out each clause and encode the values. */
  method MapUpdatesToUpdateExpression(updates: Value) returns (r: Result<UpdateCompiled, Error>)
    ensures r == UpdateExpression(updates)
  {
    var entries := OwnEntries(updates);
    var compiler := AddUpdates(entries);
    var updateExpression := WriteClauses(compiler.updateExpressions);
    var values := compiler.expressionAttributeValues;
    var encoded := Marshal.EncodeItem(Obj(values));
    r := Compiled(updateExpression, encoded);
  }
}
