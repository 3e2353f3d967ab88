# promised-dynamo core in Dafny

This project models the synchronous data transformations at the top of
`dynamodb.js` (lines 11–442). The DynamoDB wrapper runs them before it hands
plain data to the AWS SDK. There are four parts.

- **The value marshaller** (`wrappers.dfy`, `js.dfy`, `marshal.dfy`):
  - `mapJavascriptObjectToDynamoObject` encodes a JavaScript value into DynamoDB's tagged AttributeValue format (S, SS, N, NS, BOOL, L, M).
  - `mapDynamoObjectToJavascriptObject` decodes it back.
  - JavaScript values are the datatype `Js.Value`. Objects are ordered key/value sequences, because `for…in` order drives all numbering downstream.
  - The decoder picks a branch by the *truthiness* of the tag's content, so `{S: ""}` and `{BOOL: false}` decode to `undefined`. The round-trip lemmas state exactly which values come back.
- **The condition-expression compiler** (`condition.dfy`, `compiler.dfy`, `condition_props.dfy`). This is `mapConditionDefinitionToConditionExpression` with its nested helpers.
  - The compile state is the source's two counters and four tables. It is held in the class `ConditionCompiler.Compiler`, whose methods update it in place as the helpers do.
  - Each method is proved to produce the result of a function in module `Condition`, which threads the same state explicitly.
  - The properties are lemmas about those functions:
    - alias and placeholder interning, with deduplication by `String(v)`, the property key the source looks values up by;
    - operator formatting and errors;
    - NOT and operator-map composition;
    - the name table.
  - AND/OR is modelled as written. Each sub-definition is compiled into a list that is then dropped, so the branch yields `(  )`. All names and values it meets are still interned.
- **The update-expression compiler** (`update.dfy`). This is `mapUpdatesToUpdateExpression`.
  - The class `Update.UpdateCompiler` keeps the clause dictionary, the values table and the running counter `i`.
  - Its methods are proved to build exactly what the declarative functions `Assignments`, `ClauseOrder`, `Grouped` and `Render` describe.
- **Key helpers** (`keys.dfy`):
  - `keyConditionForKeyConditionString` splits `"OP v1 v2"` on single spaces into a legacy KeyConditions record;
  - `mapKeySchemaToIndexDefinition` turns a HASH/RANGE key schema into `{key, keyType, range, rangeType}`.

`text.dfy` holds the string operations involved:

- decimal text of integers;
- `Array.prototype.join`;
- `String.prototype.split` with a one-character separator, with the lemmas that split and join are inverse.

Behaviour of the code that a reader might not expect, which the model follows:

- **AND/OR output.** The usage comment at dynamodb.js:133 reads an `OR` list as `name = tacos OR type = tex-mex OR ( type = mexican AND region = america )`. The code interns the names and values of the sub-definitions but returns the text `(  )` for AND and OR.
- **Value deduplication.** Values are deduplicated by `String(v)`, so `5` and `"5"` share a placeholder, and so do any two plain objects.
- **Unsupported values.** The encoder omits a property whose value it cannot encode (undefined, or an array starting with a boolean or undefined) and produces no error for it.
- **Removal and deletion.** The comment at dynamodb.js:337-347 lists `{ REMOVE : attrName }` and `{ DELETE : … }` as update forms. The code has cases only for `ADD` and `SET`, so `REMOVE` and `DELETE` become an implicit SET of an attribute named `REMOVE` or `DELETE`.
- **Update spacing.** ADD pieces are `field  :i`, with two spaces.
- **Empty clauses.** An empty clause object still writes its clause type, e.g. `ADD  `.
- **Key-condition splitting.** Key conditions split on single spaces, not on runs of whitespace. So `"EQ  x"` has an empty operand.

## Model

| member | source | states |
|---|---|---|
| Marshal.EncodeItem | dynamodb.js:63-118 | A successful encoding gives null exactly for a falsy item, and an item otherwise. |
| Marshal.EncodeProperty | dynamodb.js:76-112 | Defines the tag choice for one property by its `typeof` and, for arrays, the type of the first element. No contract of its own: TagChoice, TagOmission, NumberArrayEncoding and ObjectArrayEncoding state what it does. |
| Marshal.TagChoice | dynamodb.js:73-112 | The tag follows the property's type. A string gives S of itself. A number gives N of its text. A boolean gives BOOL. An empty array or one starting with a string gives SS of the array. One starting with a number gives NS of each element's text. One starting with an object (null, array, object) gives L of the element encodings, one per element. An object gives M holding the object's own encoding, and null gives `{M: null}`. |
| Marshal.TagOmission | dynamodb.js:76-112 | A property is left out of the encoding exactly when it is undefined, or an array starting with a boolean or undefined. Only arrays and objects can make the encoding fail. |
| Marshal.NumberArrayEncoding | dynamodb.js:91-92 | An array starting with a number encodes as NS of its elements' `toString` texts, or fails as that map does. |
| Marshal.ObjectArrayEncoding | dynamodb.js:94-101 | An array starting with null, an array or an object encodes as L of its elements, or fails as that map does. |
| Marshal.EncodedNames | dynamodb.js:72-115 | A successful encoding has exactly the names of the properties that are not omitted, in `for…in` order. |
| Marshal.EncodeEntriesAt | dynamodb.js:72-115 | When the encoding succeeds, every property's tag choice succeeds, and a property that is not omitted appears, after the kept properties before it, under its own name with its tag choice as its value. |
| Marshal.EncodeEntries | dynamodb.js:72-115 | An encoded item never has more entries than the object has properties. |
| Marshal.ToTexts | dynamodb.js:91-93 | The NS texts: one per element, each the element's `String(…)`. |
| Marshal.ToTextsFails | dynamodb.js:91-93 | The `toString` map throws exactly when some element is null or undefined. |
| Marshal.EncodeElements | dynamodb.js:95-101 | An L list has exactly one entry per array element. |
| Marshal.EncodeElementsAt | dynamodb.js:95-101 | When the L list encodes, entry i is `{M: …}` of the encoding of element i (`{M: null}` for a null element), and that encoding succeeded. |
| Marshal.DecodeItem | dynamodb.js:11-57 | Defines the decoder: null for a null item, otherwise an object of the decoded attributes. No contract of its own: ItemRoundTrip states the round trip through it. |
| Marshal.DecodeWire | dynamodb.js:19-43 | Defines `mapProperty`: the first tag whose content is truthy decides, and `{M: …}` is decoded as an item. No contract of its own: PropertyRoundTrip and the array round-trip lemmas state what comes back. |
| Marshal.DecodeFields | dynamodb.js:45-54 | Decoding keeps every attribute's name and position, even when its value decodes to undefined. |
| Marshal.DecodeFieldsAt | dynamodb.js:45-54 | Attribute i of a decoded item is wire attribute i's name with `mapProperty` of its value. |
| Marshal.NumbersOf | dynamodb.js:33-37 | An NS decodes to one `Number(text)` per text, in order. |
| Marshal.DecodeList | dynamodb.js:38-40 | An L decodes to one value per element, element i being `mapProperty` of wire element i. |
| Marshal.NumberTextRoundTrip | dynamodb.js:79-81 | `Number(x.toString())` gives x back exactly when x is a number. |
| Marshal.NumberTextsRoundTrip | dynamodb.js:91-93 | An NS array decodes back to the array exactly when every element is a number. |
| Marshal.ElementRoundTrip | dynamodb.js:95-100 | A list element comes back exactly when it is undefined, or an object whose properties all round-trip. |
| Marshal.ElementsRoundTrip | dynamodb.js:95-100 | An L array comes back exactly when every element does. |
| Marshal.PropertyRoundTrip | dynamodb.js:19-43 | decode(encode(v)) == v exactly for the supported values. These are a non-empty string, any number, true, an empty array or one starting with a string, an all-number array, an array of objects, and an object whose properties are supported. `""` and `false` come back as undefined. |
| Marshal.NumberArrayRoundTrip | dynamodb.js:33-37 | An array starting with a number comes back from NS exactly when every element is a number. |
| Marshal.ObjectArrayRoundTrip | dynamodb.js:38-40 | An array starting with an object-typed value comes back from L exactly when its first element is an object and every element is undefined or an object whose properties all round-trip. |
| Marshal.ArrayRoundTrip | dynamodb.js:85-109 | An array comes back exactly when it is supported: empty, starting with a string, all numbers, or starting with an object and made of supported list elements (undefined, or objects whose properties all round-trip). |
| Marshal.EntriesRoundTripIff | dynamodb.js:63-118 | All properties of an object are encoded and decode back exactly when each is supported. |
| Marshal.ItemRoundTrip | dynamodb.js:11-57 | A falsy item encodes to null, and null decodes to null. An object item comes back exactly when all its properties are supported. |
| Js.NumberOf | dynamodb.js:30 | `Number(text)` is always a number: an integer or NaN. |
| Js.NumberOfIntText | dynamodb.js:80 | `Number(n.toString()) == n` for every integer n. |
| Text.NatTextReadsBack | dynamodb.js:310 | The counter's decimal text is a non-empty run of digits that reads back as the counter. |
| Text.NatTextInjective | dynamodb.js:310 | Different counters give different texts. |
| Text.Split | dynamodb.js:408 | `split` always yields at least one token. |
| Text.CountIn | dynamodb.js:408 | A separator occurs in a string exactly when its count there is positive. |
| Text.SplitCount | dynamodb.js:408 | n separators give n + 1 tokens, empty tokens included. |
| Text.SplitTokensFree | dynamodb.js:408 | No token contains the separator. |
| Text.JoinSplit | dynamodb.js:408 | Joining the tokens with the separator gives back the string. |
| Text.SplitFreePrefix | dynamodb.js:408 | A separator-free prefix only lengthens the first token. |
| Text.SplitJoin | dynamodb.js:408 | Splitting a join of separator-free parts gives back the parts. |
| Condition.Keys | dynamodb.js:175 | The lookup key of each interned value is its `String(v)`. |
| Condition.WithName | dynamodb.js:309-313 | After interning, the name is present, no earlier name is lost or moved, and at most one name is added. |
| Condition.WithValue | dynamodb.js:175-179 | After interning, the value's key is in the table. |
| Condition.InternValue | dynamodb.js:175-179 | After interning, the value has a placeholder. |
| Condition.InternAll | dynamodb.js:188-196 | The `forEach` of IN and BETWEEN adds one placeholder per element and leaves the names alone. |
| Condition.WriteOperator | dynamodb.js:166-228 | An operator never changes the name table. |
| Condition.OperatorsFrom | dynamodb.js:248-252 | The operators of one attribute never change the name table. |
| Condition.OperatorsObject | dynamodb.js:244-260 | An operator map never changes the name table. OperatorsObjectShape states its text. |
| Condition.Expr | dynamodb.js:299-321 | Defines one key of a definition: AND/OR go to Composite, NOT to the loop over its keys, and any other key interns its name and then writes its operators or `=`. No contract of its own: ExprTables, ExprValues, CompositeDiscardsText, NotSingle and NotSeveral state what it does. |
| Condition.EntriesFrom | dynamodb.js:323-328 | Defines the `for…in` over a definition's keys, stopping at the first error. No contract of its own: EntriesFromTables, EntriesFromValues and EntriesFromAt state what it does. |
| Condition.Composite | dynamodb.js:266-275 | Defines the `forEach` over the AND/OR sub-definitions, which keeps only the tables. No contract of its own: CompositeTables and CompositeValues state what it does. |
| Condition.Compile | dynamodb.js:323-335 | Defines the whole compile: the top-level pieces joined with AND, the names table, and the encoded values table. No contract of its own: CompileEmpty, CompileNames, CompileValues and CompileLeaf state what it gives. |
| ConditionProperties.AliasInjective | dynamodb.js:310 | Different positions get different aliases `#n`. |
| ConditionProperties.PlaceholderInjective | dynamodb.js:176 | Different positions get different placeholders `:n`. |
| ConditionProperties.AliasStable | dynamodb.js:308-313 | Once interned, a name keeps its alias however the tables grow. |
| ConditionProperties.PlaceholderStable | dynamodb.js:175-179 | Once interned, a value keeps its placeholder however the tables grow. |
| ConditionProperties.AliasOfPosition | dynamodb.js:309-312 | In a repeat-free table, the name at position i is aliased `#(i+1)`. |
| ConditionProperties.NameInterning | dynamodb.js:308-313 | A name seen before keeps its alias and changes nothing. A new name is appended and gets `#(count)`, where count is the number of names + 1. Tables without repeats stay so. |
| ConditionProperties.ValueInterning | dynamodb.js:175-179 | A value whose `String(v)` is already interned reuses its placeholder and changes nothing. Any other value is appended and gets `:(count)`, the counter moving by exactly 1. The names are untouched. |
| ConditionProperties.InternAllTables | dynamodb.js:188-196 | Interning a list only appends to the values table and keeps it free of repeats. |
| ConditionProperties.InternAllKeepsPrefix | dynamodb.js:188-196 | Interning a list keeps the placeholders collected before it. |
| ConditionProperties.InternAllPlaceholders | dynamodb.js:186-198 | IN/BETWEEN collect one placeholder per element, in input order, each the one the final table gives that element (deduplicated across the whole compile). |
| ConditionProperties.WriteOperatorFails | dynamodb.js:181-227 | An operator fails exactly for IN without an array, BETWEEN without an array of exactly two, or an operator that is neither one of `= > >= < <= <>` nor IN, BETWEEN or CONTAINS. Each failure carries the source's error. |
| ConditionProperties.InternAllAt | dynamodb.js:188-196 | The i-th element of an IN/BETWEEN list gets the i-th collected placeholder, and it is the one the resulting table gives that element. |
| ConditionProperties.ComparisonOperand | dynamodb.js:169-180 | A comparison interns its operand and writes `#a op :p`. |
| ConditionProperties.ContainsOperand | dynamodb.js:217-224 | CONTAINS interns its operand and writes `contains ( #a, :p )`. |
| ConditionProperties.InOperands | dynamodb.js:181-198 | IN with an array interns its elements in order and writes the placeholders joined by `, ` in parentheses. |
| ConditionProperties.BetweenOperands | dynamodb.js:199-216 | BETWEEN with two operands interns both in order and writes the first two placeholders. |
| ConditionProperties.InText | dynamodb.js:181-198 | IN yields `#a IN (:p1, :p2, …)`, the placeholders in input order. |
| ConditionProperties.BetweenText | dynamodb.js:199-216 | BETWEEN yields `#a BETWEEN :p AND :q` for its two operands, in order. |
| ConditionProperties.WriteOperatorTables | dynamodb.js:166-228 | An operator only appends values and never repeats a value key. |
| ConditionProperties.OperatorsFromTables | dynamodb.js:244-253 | The operators of an attribute only append values, without repeats. |
| ConditionProperties.ExprTables | dynamodb.js:299-320 | Compiling one key only appends to the tables and keeps them free of repeats. It adds exactly the attribute names the definition mentions, for AND/OR too. |
| ConditionProperties.EntriesFromTables | dynamodb.js:323-328 | The `for…in` over a definition gives one piece per key, appends to the tables without repeats, and interns the names of every key. |
| ConditionProperties.CompositeTables | dynamodb.js:262-275 | The sub-definitions of AND/OR are compiled in order for their effect on the tables, interning all their names. |
| ConditionProperties.CompositeDiscardsText | dynamodb.js:262-279 | AND/OR with a non-array fails. With an array it yields `(  )`, while every name and every value key of every sub-definition is still interned. |
| ConditionProperties.ValueKeysInterned | dynamodb.js:175-179 | Interning a value adds its `String(v)` key to the value keys and nothing else. |
| ConditionProperties.InternAllKeys | dynamodb.js:188-196 | The `forEach` of IN/BETWEEN adds exactly the keys of its elements. |
| ConditionProperties.WriteOperatorValues | dynamodb.js:166-228 | A successful operator adds exactly the keys of its operands: the elements of an IN/BETWEEN array, or else the operand itself. |
| ConditionProperties.OperatorsFromValues | dynamodb.js:244-253 | An operator map adds exactly the keys of all its operators' operands. |
| ConditionProperties.ExprValues | dynamodb.js:299-321 | Compiling one key adds exactly the value keys its definition mentions, inside AND/OR and NOT too. |
| ConditionProperties.EntriesFromValues | dynamodb.js:323-328 | The `for…in` over a definition adds exactly the value keys of all its keys. |
| ConditionProperties.CompositeValues | dynamodb.js:262-275 | The sub-definitions of AND/OR intern all their values, although their text is dropped. |
| ConditionProperties.NotSingle | dynamodb.js:281-297 | NOT over one key is `NOT e`. |
| ConditionProperties.NotSeveral | dynamodb.js:281-297 | NOT over any number of keys but one succeeds exactly when the loop over its keys does, with the loop's error otherwise. The text is `NOT ( e1 AND … AND en )` over the loop's pieces, one per key (EntriesFromAt says which piece is which). |
| ConditionProperties.OperatorsObjectShape | dynamodb.js:244-260 | An operator map with no operators gives `(  )` and the tables unchanged. With one operator it is that operator's expression bare. With several it succeeds exactly when the operator loop does. The text is then `( e1 AND … AND en )` over the loop's pieces, one per operator (OperatorsFromAt says which piece is which). |
| ConditionProperties.OperatorsFromCount | dynamodb.js:246-252 | The operator loop gives one piece per operator, after the pieces it started with. |
| ConditionProperties.OperatorsFromAt | dynamodb.js:246-252 | Piece i of the operator loop is operator i written against the tables the operators before it left; that write succeeds whenever the loop does. |
| ConditionProperties.EntriesFromAt | dynamodb.js:285-289 | Piece i of the loop over a definition's keys is key i compiled against the tables the keys before it left; that compile succeeds whenever the loop does. |
| ConditionProperties.CompileEmpty | dynamodb.js:323-334 | An absent or empty condition compiles to `""` with empty tables. |
| ConditionProperties.NameTableUnique | dynamodb.js:330-332 | The names table of a repeat-free list has `#(i+1)` at position i, and no alias or name repeats. |
| ConditionProperties.CompileNames | dynamodb.js:157-336 | In a compile's names table, entry i is `#(i+1)`, no alias or name repeats, and the names are exactly those the condition mentions. |
| ConditionProperties.ValueTablePlaceholders | dynamodb.js:176-177 | The placeholders of a values table are numbered from `:1` and never repeat. |
| ConditionProperties.CompileValues | dynamodb.js:157-336 | After a compile no two interned values share a `String(v)` key. The keys are exactly those of the values the condition mentions, AND/OR included. Entry i of the values table is `:(i+1)` with value i, no placeholder repeats, and the returned values are that table encoded. |
| ConditionProperties.CompileLeaf | dynamodb.js:157-336 | `{a: v}` with a plain operand compiles to `#1 = :1`, names `{#1: a}` and values `encode({":1": v})`. |
| ConditionCompiler.Compiler.NameLookup | dynamodb.js:309-313 | namesForExpressionAttributes maps each interned name to its alias. |
| ConditionCompiler.Compiler.ValueLookup | dynamodb.js:175-180 | valuesForExpressionAttributes maps each interned value's key to its placeholder. |
| ConditionCompiler.Compiler.constructor | dynamodb.js:159-164 | A fresh compile: empty tables, both counters at 1. |
| ConditionCompiler.Compiler.InternValue | dynamodb.js:175-179 | Interning in place does what `Condition.InternValue` does and returns the value's placeholder. |
| ConditionCompiler.Compiler.InternName | dynamodb.js:309-313 | Interning in place does what `Condition.WithName` does. |
| ConditionCompiler.Compiler.InternEach | dynamodb.js:186-196 | The in-place `forEach` gives the placeholders and state of `Condition.InternAll`. |
| ConditionCompiler.Compiler.WriteOperatorExpression | dynamodb.js:166-228 | Returns the text or error of `Condition.WriteOperator`, leaves the state as it says, and keeps the names. |
| ConditionCompiler.Compiler.MapOperatorsObject | dynamodb.js:244-260 | Agrees with `Condition.OperatorsObject`. |
| ConditionCompiler.Compiler.WriteOperators | dynamodb.js:246-252 | The in-place loop over an operator object gives the pieces and state of `Condition.OperatorsFrom`, stopping at the first error, and keeps the names. |
| ConditionCompiler.Compiler.MapEntries | dynamodb.js:323-328 | The in-place `for…in` over a definition gives the pieces and state of `Condition.EntriesFrom`, stopping at the first error. |
| ConditionCompiler.Compiler.MapComposite | dynamodb.js:262-279 | Agrees with `Condition.Expr` for AND/OR. |
| ConditionCompiler.Compiler.MapNot | dynamodb.js:281-297 | Agrees with `Condition.Expr` for NOT. |
| ConditionCompiler.Compiler.MapExpressionDefinition | dynamodb.js:299-321 | Agrees with `Condition.Expr`. The name is interned before any of its values. |
| ConditionCompiler.MapConditionDefinitionToConditionExpression | dynamodb.js:157-336 | The in-place compile returns exactly `Condition.Compile`. |
| Update.Assignments | dynamodb.js:373-390 | Every assignment goes in ADD or SET. |
| Update.ClauseOrder | dynamodb.js:358-361 | Defines the order in which clause types are first opened. No contract of its own: ClauseOrderShape states its shape. |
| Update.PiecesOf | dynamodb.js:363-370 | A clause never has more pieces than there are assignments. |
| Update.Render | dynamodb.js:391-397 | Defines the output loop: `TYPE e1, e2 ` per clause, in dictionary order. No contract of its own: SingleClause, EmptyClause and WriteClauses state what it gives. |
| Update.UpdateText | dynamodb.js:373-397 | Defines the whole expression text: the clause dictionary rendered. No contract of its own: ImplicitSet and AddSpacing state concrete outputs. |
| Update.UpdateExpression | dynamodb.js:350-404 | Defines the compile declaratively. No contract of its own: MapUpdatesToUpdateExpression is proved equal to it. |
| Update.ClauseOrderShape | dynamodb.js:373-390 | The clause order has no repeats and holds only ADD and SET. It holds a type exactly when some top-level key goes in that clause. |
| Update.AssignmentsInOrder | dynamodb.js:359-390 | Every assignment's clause has been opened. |
| Update.PiecesOfUnused | dynamodb.js:359-361 | A clause with no assignments has an empty list. |
| Update.PiecesPartition | dynamodb.js:363-370 | The number of ADD pieces plus the number of SET pieces is the number of assignments. |
| Update.PlaceholdersFresh | dynamodb.js:357-371 | Every field gets a fresh placeholder. The table is numbered `:1`, `:2`, … with no placeholder twice, even for equal values. |
| Update.SingleClause | dynamodb.js:393-397 | One clause holding one piece renders as `TYPE piece `, with a trailing space. |
| Update.ImplicitSet | dynamodb.js:383-388 | Any key other than ADD and SET is an implicit SET: `{f: v}` gives `SET f = :1 ` and `{":1": v}`. |
| Update.AddSpacing | dynamodb.js:377-379 | ADD has no operator: `{ADD: {f: v}}` gives `ADD f  :1 `, with two spaces. |
| Update.EmptyClause | dynamodb.js:359-361 | An empty ADD or SET object still opens its clause: `ADD  `. |
| Update.GroupedPush | dynamodb.js:365-366 | Recording an assignment pushes its piece, numbered by the counter, onto its clause's list. |
| Update.GroupedOpen | dynamodb.js:359-361 | Opening an unused clause adds it with an empty list. |
| Update.ValuesTableAppend | dynamodb.js:365 | Recording one more assignment appends its value under the next placeholder. |
| Update.TaggedStep | dynamodb.js:363-370 | Taking one more property of a clause object appends its assignment. |
| Update.PrefixStep | dynamodb.js:373-390 | Each top-level property extends the clause order and the assignments by its own share. |
| Update.UpdateCompiler.constructor | dynamodb.js:353-356 | Empty dictionary and table, counter `i` at 1. |
| Update.UpdateCompiler.Open | dynamodb.js:359-361 | `updateExpressions[type]` is created only if missing. |
| Update.UpdateCompiler.Record | dynamodb.js:364-369 | One property: its value under `:i`, its piece pushed, and `i` incremented. The counter stays one past the table. |
| Update.UpdateCompiler.AddToUpdateExpressions | dynamodb.js:358-371 | Opens the clause and appends one assignment per property of the addition. The counter stays the table size + 1. |
| Update.AddUpdate | dynamodb.js:375-388 | The `switch`: ADD and SET pass their object on, and any other key passes `{key: value}` to SET. |
| Update.WriteClauses | dynamodb.js:391-397 | The output is `TYPE e1, e2 ` per clause type, in dictionary order. |
| Update.AddUpdates | dynamodb.js:373-390 | After the `for…in` over the updates, the clause dictionary is `Grouped` over the clause order and assignments, and the values table holds one entry per assignment. |
| Update.MapUpdatesToUpdateExpression | dynamodb.js:350-404 | The in-place compile returns exactly `Update.UpdateExpression`: the rendered clauses in first-use order and the encoded values table. |
| Keys.KeyConditionForString | dynamodb.js:406-424 | Defines the parse. No contract of its own: ParseReadsBack, SingleTokenIsEq and ParseShape state what it gives. |
| Keys.ParseReadsBack | dynamodb.js:406-424 | Parsing `OP v1 … vn` (n ≥ 1, no token holding a space) gives back operator OP and operands v1 … vn. |
| Keys.SingleTokenIsEq | dynamodb.js:406-424 | A condition parses to EQ with itself as the single operand exactly when it holds no space. |
| Keys.ParseShape | dynamodb.js:406-424 | There is one operand per space when there is a space, else exactly one. With a space, neither the operator nor any operand holds one, and operator + " " + operands joined by " " is the input. |
| Keys.IndexDefinitionFor | dynamodb.js:426-442 | Defines the `forEach` over the key schema. No contract of its own: NoEntryUndefined, LastEntryWins and OtherKeyTypesIgnored state what it gives. |
| Keys.Entered | dynamodb.js:431-437 | Defines one step of the `forEach`. No contract of its own: LastEntryWins states its effect. |
| Keys.NoEntryUndefined | dynamodb.js:426-442 | With no HASH (RANGE) entry, key/keyType (range/rangeType) stay undefined. |
| Keys.LastEntryWins | dynamodb.js:426-442 | The last HASH (RANGE) entry sets key (range) to its name and keyType (rangeType) to its looked-up type. Later entries of other KeyTypes do not change it. |
| Keys.OtherKeyTypesIgnored | dynamodb.js:429-438 | Dropping the entries whose KeyType is neither HASH nor RANGE leaves the definition unchanged. |
| Keys.KeyEntriesAppend | dynamodb.js:429-438 | The HASH/RANGE filter distributes over appending an entry. |

## Left out

- **Floating point.** Numbers are integers. JavaScript's floating-point `toString` and `Number(text)` on fractions and exponents are not modelled.
- NumberOf: gives NaN for every text other than "", decimal digits and '-' followed by digits. JavaScript's `Number` also reads whitespace-padded texts (`" 2"`), '+'-signed texts, hexadecimal (`"0x10"`), `"Infinity"` and a blank text as numbers. Such texts reach an NS value when an array starts with a number and later holds strings, so decoding that NS gives NaN where the source gives a number. The round trips are stated only for the supported values, whose NS texts are all integer texts.
- CharEntries: walks a string one Dafny char (a Unicode scalar value) at a time, while `for…in` over a JavaScript string walks UTF-16 code units. A character outside the Basic Multilingual Plane gives one entry in the model and two in the source.
- **Other JavaScript types.** Functions and symbols (omitted by the encoder) are not values of the model. So are Dates and other class instances.
- **Prototype quirks.** Tables keyed by names like `constructor` or `__proto__` would hit inherited properties. The tables are modelled as plain maps and sequences.
- **Key order.** `for…in` visits integer-like keys of an object first. The model keeps objects in insertion order.
- **`hasOwnProperty`.** The filter is always true, because the model's objects have only own properties.
- **The I/O layer.** The `DynamoDb` constructor and table methods (dynamodb.js:461-892) are network and promise plumbing over the AWS SDK: credentials, describeTable, get/put/delete/query/scan/update, and `console.log`. This includes the hash/range key-object construction and its "requires both a hash and range key" error inside the promise callbacks.
- **Option constants.** The option tables (dynamodb.js:895-912) are plain data.
- **Absent versus undefined.** `IndexDefinition` uses None both for a property that was never set and for one set to `undefined`. Decoding does tell them apart: a decoded attribute keeps its name with the value undefined, as the source does.
- **Other wire tags.** The wire type has no NULL, B or BS tag. For an attribute whose value holds only one of those, the source's `mapProperty` falls through every branch and gives undefined; the model has no such input.
- **Several tags on one attribute value.** The wire type holds exactly one tag per attribute value. So it cannot express a value with several tags, for which `mapProperty` takes the first truthy one in the order S, SS, BOOL, N, NS, L, M.
- **The SS tag.** An array starting with a string is passed through as the SS content unchanged, so its later elements may be any value, as in the source.
