# Extended Laravel validation rules, modelled in Dafny

This project models the rule-evaluation layer of the `PrateekKathal\Validation\Validator` class. That class adds two rules to Laravel's validator:

- `relation_exists:Model,path,...` and `relation_not_exists:Model,path,...` look up the record(s) named by the field's value. They then ask whether every listed relation path (possibly dotted, such as `items.reviews`) has at least one related row.
- The class also dispatches custom rule extensions and message replacers. An extension is a closure or a `"Class@method"` string, found in a registry keyed by rule name, and reached by dynamic `validate<Rule>` calls.

Modules:

- `Text` (text.dfy): the PHP string primitives the code uses. These are `explode`, `implode`, `str_replace`, `Str::contains` and integer interpolation. It also proves their round trips.
- `Outcomes` (outcomes.dfy): `Option`, `Result`, and the three exceptions the class throws: `InvalidArgumentException`, `ModelNotFoundException` and `BadMethodCallException`.
- `Eloquent` (eloquent.dfy): the data store, seen through four uninterpreted functions supplied by the caller:
  - `lookup` is `where(...)->first()`
  - `lookupMany` is `whereIn(...)->get()`
  - `step` is `$builder->$relation()`
  - `count` is `$builder->count()`

  Every property therefore holds for every database.
- `RelationRules` (relations.dfy): the two relation rules. The `foreach` loops of `checkIfRelationExists` and `checkMultiRelationsExists` are methods, proved against the `forall` predicates `AllPathsHold` and `AllRecordsHold`. `Evaluate` is the specification of both rules.
- `Replacers` (replacers.dfy): the `:values` replacer shared by both rules.
- `Extensions` (extensions.dfy): `callExtension`, `callClassBasedExtension`, `callReplacer`, `callClassBasedReplacer` and `__call`. Each is a function returning the call that is made: which closure, or which class and method, with which arguments.
- `CurrentPassword` (password.dfy): the credential array that `current_password` hands to the authentication guard.

The polarity of `relation_exists` is kept as the code has it. The rule negates the presence check (src/Validator.php:82 and :87), so it passes when some relation is missing. `relation_not_exists` passes when all relations are present. `RulesAreComplementary` proves that the two rules disagree on every input where neither throws.

A dotted path such as `items.reviews` is resolved by calling `step` for every segment. The final builder is then counted once (src/Validator.php:193-197). Nothing stops early when `items` is empty. `PathHolds` and `DottedPathFollowsSegments` state this.

## Model

| member | source | states |
|---|---|---|
| `Outcomes.Negate` | src/Validator.php:82-89 | `!` on a check that may throw: a result is inverted, and an exception passes through unchanged |
| `Text.Occurs` | src/Validator.php:269 | `Str::contains`: an occurrence needs the pattern to be no longer than the string; `OccursSingle` shows a one-character pattern occurs iff the character is in the string |
| `Text.Explode` | src/Validator.php:191 | `explode`: at least one piece; with `ExplodeHead`, `ExplodePieces`, `JoinExplode`, `ExplodeJoin` and `ExplodeSplits` below, the pieces are the maximal separator-free runs between occurrences |
| `Text.Join` | src/Validator.php:218 | `implode`: the result starts with the first part, and one part joins to itself; `JoinExplode`/`ExplodeJoin` make it the inverse of `explode` |
| `Text.ReplaceAll` | src/Validator.php:218 | `str_replace`: a subject without the pattern is returned unchanged; `ReplaceAllIsJoinExplode` gives the full result |
| `Text.NatToString` | src/Validator.php:331 | the interpolated count is a non-empty string of decimal digits |
| `Text.ParseNatToString` | src/Validator.php:331 | reading the interpolated digits back gives the count |
| `Text.ExplodeHead` | src/Validator.php:145 | the first piece of `explode` is a prefix of the input: all of it, or the text up to where the separator starts |
| `Text.ExplodePieces` | src/Validator.php:191 | no piece produced by `explode` contains the separator |
| `Text.JoinExplode` | src/Validator.php:191 | `implode(sep, explode(sep, s)) == s` for every string |
| `Text.ExplodeJoin` | src/Validator.php:191 | `explode(c, implode(c, parts)) == parts` when no part contains `c`: the inverse direction |
| `Text.ExplodeSplits` | src/Validator.php:269-270 | `explode` yields two or more pieces exactly when the separator occurs (`Str::contains`) |
| `Text.ReplaceAllIsJoinExplode` | src/Validator.php:218 | `str_replace(p, r, s)` equals `implode(r, explode(p, s))` |
| `RelationRules.ParameterCountMessage` | src/Validator.php:331 | the exception message contains the rule name |
| `RelationRules.RequireParameterCount` | src/Validator.php:328-333 | throws exactly when there are fewer than `count` parameters, with an `InvalidArgument` message that names the rule |
| `RelationRules.GetRelations` | src/Validator.php:125-130 | the relations are the parameters with the model reference (index 0) removed, order kept; no parameters give no relations |
| `RelationRules.BaseColumn` | src/Validator.php:145 | the lookup column is a dot-free prefix of the attribute, ending at the attribute's end or at its first `.` |
| `RelationRules.Evaluate` | src/Validator.php:75-116 | a relation rule throws `InvalidArgument` exactly when there are fewer than 2 parameters; `ModelNotFound` arises only for a scalar value |
| `RelationRules.CheckIfRelationExists` | src/Validator.php:185-201 | returns true iff every path, with `step` chained over its dot-separated segments from the record, ends in a non-zero `count`; the ghost `examined` is `PathsExamined`: all paths when true, otherwise it stops right after a failing path |
| `RelationRules.CheckMultiRelationsExists` | src/Validator.php:142-157 | returns true iff every record returned by `lookupMany` on the base column passes `CheckIfRelationExists` (so no records gives true); the ghost `examined` is `RecordsExamined`, which stops right after the first failing record |
| `RelationRules.CheckSingleRelationExists` | src/Validator.php:169-176 | no matching record gives `ModelNotFound` instead of false; otherwise the result is that record's relation check |
| `RelationRules.CheckRelations` | src/Validator.php:79-89 | array values go to the multi-record check and scalars to the single-record check, with the model at parameter 0 and relations from `GetRelations` |
| `RelationRules.ValidateRelationExists` | src/Validator.php:75-90 | equals `Evaluate(RelationExists, ...)`: the parameter check comes first, then the negated presence check |
| `RelationRules.ValidateRelationNotExists` | src/Validator.php:101-116 | equals `Evaluate(RelationNotExists, ...)`: the parameter check comes first, then the presence check itself |
| `RelationRules.ResolveChainsLeftToRight` | src/Validator.php:189-195 | the builder starts at the record, and each segment's relation is applied to the previous builder, first segment first |
| `RelationRules.DottedPathFollowsSegments` | src/Validator.php:191-197 | a path `a.b.c` holds iff the builder reached by calling `a`, then `b`, then `c` counts a row |
| `RelationRules.FirstFailingPath` | src/Validator.php:187-198 | the paths counted are all of them when every path holds; otherwise they end at the first failing path, and every earlier path holds |
| `RelationRules.UnexaminedPathsIrrelevant` | src/Validator.php:197 | when a path fails, replacing the paths after the last one counted changes neither how many are counted nor the false result |
| `RelationRules.FirstFailingRecord` | src/Validator.php:150-154 | the records examined are all of them when every record passes; otherwise they end at the first failing record, and every earlier record passes |
| `RelationRules.UnexaminedRecordsIrrelevant` | src/Validator.php:151-152 | when a record fails, replacing the records after the last one examined changes neither how many are examined nor the false result |
| `RelationRules.RulesAreComplementary` | src/Validator.php:75-116 | on the same inputs the two rules either both return, with opposite booleans, or both throw the same kind of exception |
| `RelationRules.ParameterCheckPrecedesLookup` | src/Validator.php:75-79 | with fewer than 2 parameters the result is the `InvalidArgument` exception naming the rule, whatever the store and the value |
| `RelationRules.MissingRecordThrows` | src/Validator.php:171-173 | a scalar value that matches no record makes both rules throw `ModelNotFound` |
| `RelationRules.NoRecordsHoldVacuously` | src/Validator.php:145-156 | an array value that matches no records makes `relation_not_exists` pass and `relation_exists` fail |
| `RelationRules.OrderExamplePaths` | src/Validator.php:185-197 | in the example store, the column of `order_id` is `order_id`, and the path `items` holds for an order iff it has items |
| `RelationRules.SingleOrderWithoutItems` | src/Validator.php:75-90 | `order_id` = 5 with no items: `relation_exists` passes and `relation_not_exists` fails |
| `RelationRules.BothOrdersWithItems` | src/Validator.php:101-116 | `order_id` = [5, 7], both with items: `relation_exists` fails and `relation_not_exists` passes |
| `RelationRules.UnknownOrderThrows` | src/Validator.php:169-173 | an unknown scalar order id throws `ModelNotFound` |
| `Replacers.AttributeList` | src/Validator.php:214 | each parameter becomes its display name, at the same position |
| `Replacers.RelationDisplayNames` | src/Validator.php:214-216 | the names are the display names of parameters 1..n, in order |
| `Replacers.ReplaceRelationValues` | src/Validator.php:212-238 | every `:values` is replaced by the relation names joined with `" / "`; a message without `:values` comes back unchanged |
| `Extensions.ParseCallback` | src/Validator.php:312 | the class is the text before the first `@`; the method is present iff there is an `@`, and is the whole `@`-free text that follows it, up to the next `@` or the end |
| `Extensions.CallClassBasedExtension` | src/Validator.php:267-276 | `"C@m"` calls method `m` of `C`; a string without `@` calls `validate` on the class it names; the parameters are passed on unchanged |
| `Extensions.CallExtension` | src/Validator.php:248-257 | a closure gets the parameters and a string goes to the class-based call; null, any other value, or no entry returns null |
| `Extensions.CallClassBasedReplacer` | src/Validator.php:310-315 | calls the parsed class and method with message, attribute, rule and parameters; without `@` the method is null |
| `Extensions.CallReplacer` | src/Validator.php:288-297 | closures and class-based replacers receive the same four arguments; a string replacer reaches `CallClassBasedReplacer` on its callback; anything else returns null |
| `Extensions.RuleSuffix` | src/Validator.php:347 | the method name with its first 8 characters (`validate`) removed |
| `Extensions.DynamicCall` | src/Validator.php:345-354 | throws `BadMethodCall`, naming the method, exactly when the snake-cased rule has no entry or is bound to null (`isset`); otherwise it is `callExtension` for that rule |
| `Extensions.ParseCallbackInverse` | src/Validator.php:269-270 | parsing `C + "@" + m` gives back `C` and `m` |
| `Extensions.ClosureRuleDispatches` | src/Validator.php:349-350 | `validate<Name>` for a rule registered as a closure calls exactly that closure, with the call's arguments |
| `Extensions.ClassRuleDispatches` | src/Validator.php:349-350 | `validate<Name>` for a rule registered as `"C@m"` calls method `m` of `C` |
| `CurrentPassword.LookupKey` | src/Validator.php:56 | the credential key is the first parameter, or `email` when there are none |
| `CurrentPassword.Credentials` | src/Validator.php:52-64 | the credential array has the key and `password`; the key maps to parameter 1 when there are exactly 2 parameters, otherwise to the request's input; `password` maps to the value, and wins on a clash |

## Left out

- The boolean the authentication guard returns for `current_password` (`auth()->validate`) is left out, because it belongs to the framework. Only the credentials the rule builds are modelled. The ambient `request()` is a function parameter.
- Eloquent query semantics are left out: what `where`, `whereIn`, `first`, `count` and dynamic relation calls do against a database. They are the uninterpreted functions of `Eloquent.Store`.
- Relation results are deterministic in the model: the same builder and name always give the same builder.
- The store is pure, so the calls it receives are not recorded. The early `return false` of `checkIfRelationExists` and `checkMultiRelationsExists` is stated through a ghost count of the paths/records examined (`PathsExamined`, `RecordsExamined`). That nothing is consulted before the parameter check is stated as independence from the store (`ParameterCheckPrecedesLookup`).
- PHP strings are byte strings; the model's are sequences of characters. `substr($method, 8)` drops 8 bytes where `RuleSuffix` drops 8 characters, so the two agree only on names whose first 8 characters are single bytes (such as `validate`). `explode` and `str_replace` agree with the model because `.`, `@` and `:values` are ASCII.
- What a called extension or replacer returns is left out. This covers `call_user_func_array`, `$this->container->make` and PHP's failure when a replacer's method name is null. The model stops at the `Invocation` that is made.
- `Str::snake` and the display names of `getAttributeList` belong to the framework. They are function parameters.
- PHP values are modelled as strings only: a scalar field value is a string, and an array value is a sequence of strings. Nested arrays and objects are not modelled.
- `substr($method, 8)` on a name shorter than 8 characters is modelled as the empty string, as in PHP 8. PHP 7 returns `false` there.
- `countParameters` (src/Validator.php:36-41) is the parameter count, used directly as `|parameters|`. The constructor only forwards to the base class.
- Registering extensions, implicit extensions, replacers and fallback messages is left out. It happens in src/Factory.php, src/Factory/Factory.php and the framework base classes, which are not part of this model. The same holds for the service provider and the facade.
- The translator and the message lookup that produce the template handed to the replacer are left out.
