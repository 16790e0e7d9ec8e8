/** The `relation_exists` and `relation_not_exists` validation rules: look
    up the record(s) named by the attribute's value and ask whether every
    listed (possibly dotted) relation path has at least one related row. */
module RelationRules {
  import opened Outcomes
  import opened Eloquent
  import Text

  /** The value under validation: a scalar, or a PHP array of values. */
  datatype Value = Scalar(scalar: string) | Array(items: seq<string>)

  /** The two relation rules, which share everything but their polarity. */
  datatype Rule = RelationExists | RelationNotExists
  {
    /** The rule's name as it appears in validation rule strings. */
    function Name(): string
    {
      match this
      case RelationExists => "relation_exists"
      case RelationNotExists => "relation_not_exists"
    }
  }

  // ---------------------------------------------------------------------
  // Parameters

  /** The message of the exception thrown for too few parameters. */
  function ParameterCountMessage(rule: string, count: nat): (message: string)
    ensures Text.Occurs(message, rule)
  {
    var tail := " requires at least " + Text.NatToString(count) + " parameters.";
    Text.OccursInside("Validation rule ", rule, tail);
    assert "Validation rule " + rule + " requires at least " + Text.NatToString(count) + " parameters."
        == "Validation rule " + rule + tail;
    "Validation rule " + rule + " requires at least " + Text.NatToString(count) + " parameters."
  }

  /** requireParameterCount: throws when fewer than `count` parameters are given. */
  function RequireParameterCount(count: nat, parameters: seq<string>, rule: string): (c: Check)
    ensures c.Fail? <==> |parameters| < count
    ensures c.Fail? ==> c.error.InvalidArgument? && Text.Occurs(c.error.message, rule)
  {
    if |parameters| < count then Fail(InvalidArgument(ParameterCountMessage(rule, count))) else Pass
  }

  /** getRelations: the parameters without the model reference at index 0,
      in their original order. */
  function GetRelations(parameters: seq<string>): (relations: seq<string>)
    ensures parameters != [] ==> [parameters[0]] + relations == parameters
    ensures parameters == [] ==> relations == []
  {
    if parameters == [] then [] else parameters[1..]
  }

  /** `explode('.', $attribute)[0]`: the column looked up is the attribute
      up to (not including) its first dot. */
  function BaseColumn(attribute: string): (column: string)
    ensures column <= attribute
    ensures '.' !in column
    ensures column == attribute || attribute[|column|] == '.'
  {
    var column := Text.Explode(attribute, ".")[0];
    Text.ExplodeHead(attribute, ".");
    Text.ExplodePieces(attribute, ".");
    Text.OccursSingle(column, '.');
    column
  }

  // ---------------------------------------------------------------------
  // Specification of the relation check

  /** The builder reached from `from` by calling each relation in turn. */
  function Resolve(store: Store, from: Builder, segments: seq<string>): Builder
    decreases |segments|
  {
    if segments == [] then from
    else store.step(Resolve(store, from, segments[..|segments| - 1]), segments[|segments| - 1])
  }

  /** A dotted relation path holds for a record when the builder reached by
      following its segments counts at least one row. */
  predicate PathHolds(store: Store, record: Builder, path: string)
  {
    store.count(Resolve(store, record, Text.Explode(path, "."))) > 0
  }

  /** Every relation path holds for the record. */
  predicate AllPathsHold(store: Store, record: Builder, relations: seq<string>)
  {
    forall i :: 0 <= i < |relations| ==> PathHolds(store, record, relations[i])
  }

  /** Every record satisfies every relation path. */
  predicate AllRecordsHold(store: Store, records: seq<Builder>, relations: seq<string>)
  {
    forall j :: 0 <= j < |records| ==> AllPathsHold(store, records[j], relations)
  }

  /** How many paths, from index `from` on, a left-to-right check counts:
      it stops right after the first path that fails. */
  function PathsExamined(store: Store, record: Builder, relations: seq<string>, from: nat): nat
    requires from <= |relations|
    decreases |relations| - from
  {
    if from == |relations| then from
    else if !PathHolds(store, record, relations[from]) then from + 1
    else PathsExamined(store, record, relations, from + 1)
  }

  /** How many records, from index `from` on, a left-to-right check
      examines: it stops right after the first record that fails. */
  function RecordsExamined(store: Store, records: seq<Builder>, relations: seq<string>, from: nat): nat
    requires from <= |records|
    decreases |records| - from
  {
    if from == |records| then from
    else if !AllPathsHold(store, records[from], relations) then from + 1
    else RecordsExamined(store, records, relations, from + 1)
  }

  /** Whether the relations are present for the record(s) the value names:
      all returned records in array mode, the one matching record in scalar
      mode, where a missing record is an exception. */
  function RelationsPresent(store: Store, attribute: string, value: Value, model: string, relations: seq<string>): Result<bool>
  {
    match value
    case Array(items) =>
      Ok(AllRecordsHold(store, store.lookupMany(model, BaseColumn(attribute), items), relations))
    case Scalar(v) =>
      match store.lookup(model, BaseColumn(attribute), v)
      case None => Err(ModelNotFound)
      case Some(record) => Ok(AllPathsHold(store, record, relations))
  }

  /** The outcome of a relation rule: the parameter check first, then the
      presence check, inverted for `relation_exists`. */
  function Evaluate(rule: Rule, store: Store, attribute: string, value: Value, parameters: seq<string>): (r: Result<bool>)
    ensures (r.Err? && r.error.InvalidArgument?) <==> |parameters| < 2
    ensures r == Err(ModelNotFound) ==> value.Scalar?
  {
    match RequireParameterCount(2, parameters, rule.Name())
    case Fail(e) => Err(e)
    case Pass =>
      var present := RelationsPresent(store, attribute, value, parameters[0], GetRelations(parameters));
      if rule == RelationExists then Negate(present) else present
  }

  // ---------------------------------------------------------------------
  // The validator's methods

  /** checkIfRelationExists: every path, followed segment by segment from
      the record, must end in a non-zero count. The ghost `examined` counts
      the paths whose builder was counted: the loop returns right after the
      first failing one. */
  method CheckIfRelationExists(store: Store, record: Builder, relations: seq<string>)
    returns (ok: bool, ghost examined: nat)
    ensures ok == AllPathsHold(store, record, relations)
    ensures examined == PathsExamined(store, record, relations, 0)
    ensures ok ==> examined == |relations|
    ensures !ok ==> 1 <= examined <= |relations| && !PathHolds(store, record, relations[examined - 1])
  {
    var i := 0;
    while i < |relations|
      invariant 0 <= i <= |relations|
      invariant forall k :: 0 <= k < i ==> PathHolds(store, record, relations[k])
      invariant PathsExamined(store, record, relations, i) == PathsExamined(store, record, relations, 0)
    {
      var builder := record;
      var relationSet := Text.Explode(relations[i], ".");
      var j := 0;
      while j < |relationSet|
        invariant 0 <= j <= |relationSet|
        invariant builder == Resolve(store, record, relationSet[..j])
      {
        assert relationSet[..j + 1][..j] == relationSet[..j];
        builder := store.step(builder, relationSet[j]);
        j := j + 1;
      }
      assert relationSet[..j] == relationSet;
      if store.count(builder) == 0 {
        return false, i + 1;
      }
      i := i + 1;
    }
    return true, i;
  }

  /** checkMultiRelationsExists: every record returned by the `whereIn`
      lookup must pass (so no records gives true). The ghost `examined`
      counts the records checked: the loop returns right after the first
      failing one. */
  method CheckMultiRelationsExists(store: Store, values: seq<string>, attribute: string, model: string, relations: seq<string>)
    returns (ok: bool, ghost examined: nat)
    ensures ok == AllRecordsHold(store, store.lookupMany(model, BaseColumn(attribute), values), relations)
    ensures examined == RecordsExamined(store, store.lookupMany(model, BaseColumn(attribute), values), relations, 0)
  {
    var collection := store.lookupMany(model, BaseColumn(attribute), values);
    var i := 0;
    while i < |collection|
      invariant 0 <= i <= |collection|
      invariant forall k :: 0 <= k < i ==> AllPathsHold(store, collection[k], relations)
      invariant RecordsExamined(store, collection, relations, i) == RecordsExamined(store, collection, relations, 0)
    {
      var holds;
      ghost var paths;
      holds, paths := CheckIfRelationExists(store, collection[i], relations);
      if !holds {
        return false, i + 1;
      }
      i := i + 1;
    }
    return true, i;
  }

  /** checkSingleRelationExists: the one record matching the value must
      pass; no matching record throws ModelNotFoundException. */
  method CheckSingleRelationExists(store: Store, value: string, attribute: string, model: string, relations: seq<string>)
    returns (r: Result<bool>)
    ensures store.lookup(model, BaseColumn(attribute), value).None? ==> r == Err(ModelNotFound)
    ensures store.lookup(model, BaseColumn(attribute), value).Some? ==>
              r == Ok(AllPathsHold(store, store.lookup(model, BaseColumn(attribute), value).value, relations))
  {
    var found := store.lookup(model, BaseColumn(attribute), value);
    if found.None? {
      return Err(ModelNotFound);
    }
    var ok;
    ghost var examined;
    ok, examined := CheckIfRelationExists(store, found.value, relations);
    return Ok(ok);
  }

  /** The dispatch shared by both rules, up to the polarity. */
  method CheckRelations(store: Store, attribute: string, value: Value, parameters: seq<string>)
    returns (r: Result<bool>)
    requires |parameters| >= 1
    ensures r == RelationsPresent(store, attribute, value, parameters[0], GetRelations(parameters))
  {
    var relations := GetRelations(parameters);
    if value.Array? {
      var ok;
      ghost var examined;
      ok, examined := CheckMultiRelationsExists(store, value.items, attribute, parameters[0], relations);
      return Ok(ok);
    }
    r := CheckSingleRelationExists(store, value.scalar, attribute, parameters[0], relations);
  }

  /** validateRelationExists: passes when the relations are NOT all present
      (the polarity the code has), throws on too few parameters or a missing record. */
  method ValidateRelationExists(store: Store, attribute: string, value: Value, parameters: seq<string>)
    returns (r: Result<bool>)
    ensures r == Evaluate(RelationExists, store, attribute, value, parameters)
  {
    var check := RequireParameterCount(2, parameters, "relation_exists");
    if check.Fail? {
      return Err(check.error);
    }
    var present := CheckRelations(store, attribute, value, parameters);
    return Negate(present);
  }

  /** validateRelationNotExists: passes when every relation is present. */
  method ValidateRelationNotExists(store: Store, attribute: string, value: Value, parameters: seq<string>)
    returns (r: Result<bool>)
    ensures r == Evaluate(RelationNotExists, store, attribute, value, parameters)
  {
    var check := RequireParameterCount(2, parameters, "relation_not_exists");
    if check.Fail? {
      return Err(check.error);
    }
    r := CheckRelations(store, attribute, value, parameters);
  }

  // ---------------------------------------------------------------------
  // Properties

  /** Following `seg` then `rest` is calling `seg` first and then resolving
      `rest` from there: relations are applied left to right. */
  lemma {:induction false} ResolveChainsLeftToRight(store: Store, from: Builder, seg: string, rest: seq<string>)
    ensures Resolve(store, from, [seg] + rest) == Resolve(store, store.step(from, seg), rest)
    decreases |rest|
  {
    if rest == [] {
      assert ([seg] + rest)[..0] == [];
    } else {
      var init := rest[..|rest| - 1];
      ResolveChainsLeftToRight(store, from, seg, init);
      assert ([seg] + rest)[..|rest|] == [seg] + init;
    }
  }

  /** A dotted path `a.b.c` holds exactly when the builder reached by
      calling `a`, then `b`, then `c` on the record counts a row. */
  lemma DottedPathFollowsSegments(store: Store, record: Builder, segments: seq<string>)
    requires |segments| >= 1
    requires forall k :: 0 <= k < |segments| ==> '.' !in segments[k]
    ensures PathHolds(store, record, Text.Join(segments, ".")) <==> store.count(Resolve(store, record, segments)) > 0
  {
    Text.ExplodeJoin(segments, '.');
  }

  /** The paths counted are exactly those up to the first failing one:
      all of them when every path holds, otherwise a prefix ending in the
      first failure. */
  lemma {:induction false} FirstFailingPath(store: Store, record: Builder, relations: seq<string>, from: nat)
    requires from <= |relations|
    requires forall k :: 0 <= k < from ==> PathHolds(store, record, relations[k])
    ensures var n := PathsExamined(store, record, relations, from);
            from <= n <= |relations| &&
            (AllPathsHold(store, record, relations) ==> n == |relations|) &&
            (!AllPathsHold(store, record, relations) ==>
               1 <= n && !PathHolds(store, record, relations[n - 1]) &&
               forall k :: 0 <= k < n - 1 ==> PathHolds(store, record, relations[k]))
    decreases |relations| - from
  {
    if from < |relations| && PathHolds(store, record, relations[from]) {
      FirstFailingPath(store, record, relations, from + 1);
    }
  }

  /** Paths after the last one counted play no part: replacing them by any
      others leaves both the count and the (false) result unchanged. */
  lemma UnexaminedPathsIrrelevant(store: Store, record: Builder, relations: seq<string>, later: seq<string>)
    requires !AllPathsHold(store, record, relations)
    ensures var n := PathsExamined(store, record, relations, 0);
            n <= |relations| &&
            PathsExamined(store, record, relations[..n] + later, 0) == n &&
            !AllPathsHold(store, record, relations[..n] + later)
  {
    FirstFailingPath(store, record, relations, 0);
    var n := PathsExamined(store, record, relations, 0);
    var other := relations[..n] + later;
    assert forall k :: 0 <= k < n ==> other[k] == relations[k];
    assert !PathHolds(store, record, other[n - 1]);
    FirstFailingPath(store, record, other, 0);
  }

  /** The records examined are exactly those up to the first failing one. */
  lemma {:induction false} FirstFailingRecord(store: Store, records: seq<Builder>, relations: seq<string>, from: nat)
    requires from <= |records|
    requires forall k :: 0 <= k < from ==> AllPathsHold(store, records[k], relations)
    ensures var n := RecordsExamined(store, records, relations, from);
            from <= n <= |records| &&
            (AllRecordsHold(store, records, relations) ==> n == |records|) &&
            (!AllRecordsHold(store, records, relations) ==>
               1 <= n && !AllPathsHold(store, records[n - 1], relations) &&
               forall k :: 0 <= k < n - 1 ==> AllPathsHold(store, records[k], relations))
    decreases |records| - from
  {
    if from < |records| && AllPathsHold(store, records[from], relations) {
      FirstFailingRecord(store, records, relations, from + 1);
    }
  }

  /** Records after the last one examined play no part: replacing them by
      any others leaves both the count and the (false) result unchanged. */
  lemma UnexaminedRecordsIrrelevant(store: Store, records: seq<Builder>, relations: seq<string>, later: seq<Builder>)
    requires !AllRecordsHold(store, records, relations)
    ensures var n := RecordsExamined(store, records, relations, 0);
            n <= |records| &&
            RecordsExamined(store, records[..n] + later, relations, 0) == n &&
            !AllRecordsHold(store, records[..n] + later, relations)
  {
    FirstFailingRecord(store, records, relations, 0);
    var n := RecordsExamined(store, records, relations, 0);
    var other := records[..n] + later;
    assert forall k :: 0 <= k < n ==> other[k] == records[k];
    assert !AllPathsHold(store, other[n - 1], relations);
    FirstFailingRecord(store, other, relations, 0);
  }

  /** For the same inputs the two rules raise the same kind of exception, or
      both return and disagree. */
  lemma RulesAreComplementary(store: Store, attribute: string, value: Value, parameters: seq<string>)
    ensures var e := Evaluate(RelationExists, store, attribute, value, parameters);
            var n := Evaluate(RelationNotExists, store, attribute, value, parameters);
            (e.Ok? <==> n.Ok?) &&
            (e.Ok? ==> e.value == !n.value) &&
            (e.Err? ==> e.error.InvalidArgument? == n.error.InvalidArgument? && (e.error.ModelNotFound? ==> n == e))
  {
  }

  /** Too few parameters: the exception names the rule and is raised before
      the store is consulted, so no store and no value can change it. */
  lemma ParameterCheckPrecedesLookup(rule: Rule, store1: Store, store2: Store, attribute: string,
                                     value1: Value, value2: Value, parameters: seq<string>)
    requires |parameters| < 2
    ensures Evaluate(rule, store1, attribute, value1, parameters) == Evaluate(rule, store2, attribute, value2, parameters)
    ensures Evaluate(rule, store1, attribute, value1, parameters) == Err(InvalidArgument(ParameterCountMessage(rule.Name(), 2)))
    ensures Text.Occurs(Evaluate(rule, store1, attribute, value1, parameters).error.message, rule.Name())
  {
  }

  /** Scalar mode with no matching record throws for both rules, rather than
      failing validation. */
  lemma MissingRecordThrows(rule: Rule, store: Store, attribute: string, v: string, parameters: seq<string>)
    requires |parameters| >= 2
    requires store.lookup(parameters[0], BaseColumn(attribute), v).None?
    ensures Evaluate(rule, store, attribute, Scalar(v), parameters) == Err(ModelNotFound)
  {
  }

  /** Array mode with no matching records: the presence check holds
      vacuously, so `relation_not_exists` passes and `relation_exists` fails. */
  lemma NoRecordsHoldVacuously(store: Store, attribute: string, items: seq<string>, parameters: seq<string>)
    requires |parameters| >= 2
    requires store.lookupMany(parameters[0], BaseColumn(attribute), items) == []
    ensures Evaluate(RelationNotExists, store, attribute, Array(items), parameters) == Ok(true)
    ensures Evaluate(RelationExists, store, attribute, Array(items), parameters) == Ok(false)
  {
  }

  // ---------------------------------------------------------------------
  // Worked examples: orders and their items

  /** A store of orders 5 and 7 keyed by `order_id`, where order 5 has
      `items5` items and order 7 has `items7`. */
  function OrderStore(items5: nat, items7: nat): Store
  {
    Store(
      (model: string, column: string, v: string) =>
        if model == "App.Order" && column == "order_id" && v == "5" then Some(Builder(5))
        else if model == "App.Order" && column == "order_id" && v == "7" then Some(Builder(7))
        else None,
      (model: string, column: string, vs: seq<string>) =>
        if model == "App.Order" && column == "order_id" && vs == ["5", "7"] then [Builder(5), Builder(7)] else [],
      (b: Builder, relation: string) => if relation == "items" then Builder(b.handle + 100) else Builder(0),
      (b: Builder) => if b.handle == 105 then items5 else if b.handle == 107 then items7 else 0)
  }

  /** What the example store answers for the lookups the examples make. */
  lemma OrderStoreLookups(items5: nat, items7: nat)
    ensures OrderStore(items5, items7).lookup("App.Order", "order_id", "5") == Some(Builder(5))
    ensures OrderStore(items5, items7).lookup("App.Order", "order_id", "9") == None
    ensures OrderStore(items5, items7).lookupMany("App.Order", "order_id", ["5", "7"]) == [Builder(5), Builder(7)]
  {
  }

  lemma OrderExamplePaths(items5: nat, items7: nat)
    ensures BaseColumn("order_id") == "order_id"
    ensures PathHolds(OrderStore(items5, items7), Builder(5), "items") <==> items5 > 0
    ensures PathHolds(OrderStore(items5, items7), Builder(7), "items") <==> items7 > 0
  {
    Text.OccursSingle("order_id", '.');
    Text.ExplodeAbsent("order_id", ".");
    Text.OccursSingle("items", '.');
    Text.ExplodeAbsent("items", ".");
    assert Resolve(OrderStore(items5, items7), Builder(5), ["items"]) == Builder(105);
    assert Resolve(OrderStore(items5, items7), Builder(7), ["items"]) == Builder(107);
  }

  /** `order_id` = 5 and order 5 has no items: `relation_exists` passes and
      `relation_not_exists` fails. */
  lemma SingleOrderWithoutItems()
    ensures Evaluate(RelationExists, OrderStore(0, 1), "order_id", Scalar("5"), ["App.Order", "items"]) == Ok(true)
    ensures Evaluate(RelationNotExists, OrderStore(0, 1), "order_id", Scalar("5"), ["App.Order", "items"]) == Ok(false)
  {
    var store := OrderStore(0, 1);
    OrderExamplePaths(0, 1);
    OrderStoreLookups(0, 1);
    var relations := GetRelations(["App.Order", "items"]);
    assert relations == ["items"];
    assert !AllPathsHold(store, Builder(5), relations);
    assert RelationsPresent(store, "order_id", Scalar("5"), "App.Order", relations) == Ok(false);
  }

  /** `order_id` = [5, 7] and both orders have items: `relation_exists`
      fails and `relation_not_exists` passes. */
  lemma BothOrdersWithItems()
    ensures Evaluate(RelationExists, OrderStore(2, 1), "order_id", Array(["5", "7"]), ["App.Order", "items"]) == Ok(false)
    ensures Evaluate(RelationNotExists, OrderStore(2, 1), "order_id", Array(["5", "7"]), ["App.Order", "items"]) == Ok(true)
  {
    var store := OrderStore(2, 1);
    OrderExamplePaths(2, 1);
    OrderStoreLookups(2, 1);
    var relations := GetRelations(["App.Order", "items"]);
    assert relations == ["items"];
    var records := [Builder(5), Builder(7)];
    assert AllPathsHold(store, Builder(5), relations);
    assert AllPathsHold(store, Builder(7), relations);
    assert AllRecordsHold(store, records, relations);
    assert RelationsPresent(store, "order_id", Array(["5", "7"]), "App.Order", relations) == Ok(true);
  }

  /** An unknown order id in scalar mode is an exception, not a failure. */
  lemma UnknownOrderThrows()
    ensures Evaluate(RelationExists, OrderStore(2, 1), "order_id", Scalar("9"), ["App.Order", "items"]) == Err(ModelNotFound)
  {
    OrderExamplePaths(2, 1);
    OrderStoreLookups(2, 1);
  }
}
