/** Custom rule extensions and message replacers: a registry keyed by rule
    name, whose entries are closures or "Class@method" strings, and the
    dynamic `validate<Rule>` calls that reach them. The model says which
    code gets called with which arguments; what that code returns is the
    registered extension's business. */
module Extensions {
  import opened Outcomes
  import Text

  /** A registered extension or replacer. */
  datatype Handler =
    | Closure(token: nat)             // a Closure instance
    | ClassCallback(callback: string) // "Class@method" or "Class"
    | Null                            // a rule bound to null: `isset` is false for it
    | OtherCallable                   // any other non-null value: neither branch is taken

  /** An argument passed on to an extension or replacer. */
  datatype Arg = Str(s: string) | Strs(items: seq<string>) | Opaque(token: nat)

  /** The call that dispatch makes: a closure, or a method of an instance
      the container builds of a class. A method name of None is the null
      that PHP's `list()` leaves when the callback has no '@'. */
  datatype Invocation =
    | InvokeClosure(token: nat, args: seq<Arg>)
    | InvokeMethod(className: string, methodName: Option<string>, args: seq<Arg>)

  /** `list($class, $method) = explode('@', $callback)`: the text before the
      first '@' and, when there is one, the text up to the next '@'. */
  function ParseCallback(callback: string): (parsed: (string, Option<string>))
    ensures parsed.1.None? <==> !Text.Occurs(callback, "@")
    ensures parsed.1.None? ==> parsed.0 == callback
    ensures parsed.1.Some? ==> '@' !in parsed.0 && '@' !in parsed.1.value &&
                               parsed.0 + "@" + parsed.1.value <= callback
    ensures parsed.1.Some? ==> var end := |parsed.0| + 1 + |parsed.1.value|;
                               end == |callback| || callback[end] == '@'
  {
    var parts := Text.Explode(callback, "@");
    Text.ExplodeSplits(callback, "@");
    Text.ExplodePieces(callback, "@");
    Text.JoinExplode(callback, "@");
    if |parts| >= 2 then
      Text.OccursSingle(parts[0], '@');
      Text.OccursSingle(parts[1], '@');
      Text.JoinFirstTwo(parts, "@");
      assert |parts| > 2 ==> callback[|parts[0]| + 1 + |parts[1]|] == '@' by {
        if |parts| > 2 {
          var prefix := parts[0] + "@" + parts[1] + "@";
          assert prefix <= callback;
          assert prefix[|parts[0]| + 1 + |parts[1]|] == '@';
        }
      }
      (parts[0], Some(parts[1]))
    else
      (parts[0], None)
  }

  /** callClassBasedExtension: "C@m" calls method m of C; a string without
      '@' calls method `validate` of the class it names. */
  function CallClassBasedExtension(callback: string, parameters: seq<Arg>): (call: Invocation)
    ensures call.InvokeMethod? && call.args == parameters && call.methodName.Some?
    ensures !Text.Occurs(callback, "@") ==> call.className == callback && call.methodName == Some("validate")
    ensures Text.Occurs(callback, "@") ==> call.methodName == ParseCallback(callback).1 && call.className == ParseCallback(callback).0
  {
    if Text.Occurs(callback, "@") then
      var (className, methodName) := ParseCallback(callback);
      InvokeMethod(className, methodName, parameters)
    else
      InvokeMethod(callback, Some("validate"), parameters)
  }

  /** callExtension: the registered closure gets the parameters, a
      registered string goes to `CallClassBasedExtension`; anything else,
      or no entry, returns null (None). */
  function CallExtension(extensions: map<string, Handler>, rule: string, parameters: seq<Arg>): (call: Option<Invocation>)
    ensures call.Some? <==> rule in extensions && (extensions[rule].Closure? || extensions[rule].ClassCallback?)
    ensures call.Some? && extensions[rule].Closure? ==> call.value == InvokeClosure(extensions[rule].token, parameters)
    ensures call.Some? && extensions[rule].ClassCallback? ==>
              call.value == CallClassBasedExtension(extensions[rule].callback, parameters)
  {
    if rule !in extensions then None
    else
      match extensions[rule]
      case Closure(token) => Some(InvokeClosure(token, parameters))
      case ClassCallback(callback) => Some(CallClassBasedExtension(callback, parameters))
      case Null => None
      case OtherCallable => None
  }

  /** The arguments a replacer receives: message, attribute, rule, parameters. */
  function ReplacerArgs(message: string, attribute: string, rule: string, parameters: seq<string>): seq<Arg>
  {
    [Str(message), Str(attribute), Str(rule), Strs(parameters)]
  }

  /** callClassBasedReplacer: "C@m" calls method m of C with the replacer
      arguments; there is no default method, so without '@' the method is null. */
  function CallClassBasedReplacer(callback: string, message: string, attribute: string, rule: string,
                                  parameters: seq<string>): (call: Invocation)
    ensures call.InvokeMethod? && call.args == ReplacerArgs(message, attribute, rule, parameters)
    ensures call.methodName.None? <==> !Text.Occurs(callback, "@")
    ensures (call.className, call.methodName) == ParseCallback(callback)
  {
    var (className, methodName) := ParseCallback(callback);
    InvokeMethod(className, methodName, ReplacerArgs(message, attribute, rule, parameters))
  }

  /** callReplacer: a closure and a class-based replacer receive the same
      four arguments. */
  function CallReplacer(replacers: map<string, Handler>, message: string, attribute: string, rule: string,
                        parameters: seq<string>): (call: Option<Invocation>)
    ensures call.Some? <==> rule in replacers && (replacers[rule].Closure? || replacers[rule].ClassCallback?)
    ensures call.Some? ==> call.value.args == ReplacerArgs(message, attribute, rule, parameters)
    ensures call.Some? && replacers[rule].Closure? ==> call.value.InvokeClosure? && call.value.token == replacers[rule].token
    ensures call.Some? && replacers[rule].ClassCallback? ==>
              call.value == CallClassBasedReplacer(replacers[rule].callback, message, attribute, rule, parameters)
  {
    if rule !in replacers then None
    else
      match replacers[rule]
      case Closure(token) => Some(InvokeClosure(token, ReplacerArgs(message, attribute, rule, parameters)))
      case ClassCallback(callback) => Some(CallClassBasedReplacer(callback, message, attribute, rule, parameters))
      case Null => None
      case OtherCallable => None
  }

  /** `substr($method, 8)`: the method name after the `validate` prefix
      (empty when the name is shorter). */
  function RuleSuffix(calledMethod: string): (suffix: string)
    ensures |calledMethod| >= 8 ==> calledMethod[..8] + suffix == calledMethod
    ensures |calledMethod| < 8 ==> suffix == ""
  {
    if |calledMethod| >= 8 then calledMethod[8..] else ""
  }

  /** `isset($this->extensions[$rule])`: the rule has an entry that is not null. */
  predicate IsSet(extensions: map<string, Handler>, rule: string)
  {
    rule in extensions && !extensions[rule].Null?
  }

  /** __call: `validateFooBar` looks up the extension registered under
      `snake("FooBar")`; a name with no entry, or one bound to null, throws
      BadMethodCallException naming the method. `snake` is the framework's
      Str::snake. */
  function DynamicCall(extensions: map<string, Handler>, snake: string -> string, calledMethod: string, parameters: seq<Arg>)
    : (r: Result<Option<Invocation>>)
    ensures r.Err? <==> snake(RuleSuffix(calledMethod)) !in extensions || extensions[snake(RuleSuffix(calledMethod))].Null?
    ensures r.Err? ==> r.error.BadMethodCall? && Text.Occurs(r.error.message, calledMethod)
    ensures r.Ok? ==> r.value == CallExtension(extensions, snake(RuleSuffix(calledMethod)), parameters)
  {
    var rule := snake(RuleSuffix(calledMethod));
    if IsSet(extensions, rule) then
      Ok(CallExtension(extensions, rule, parameters))
    else
      Text.OccursInside("Method [", calledMethod, "] does not exist.");
      Err(BadMethodCall("Method [" + calledMethod + "] does not exist."))
  }

  // ---------------------------------------------------------------------
  // Properties

  /** Parsing "C@m" gives back C and m when neither holds an '@'. */
  lemma ParseCallbackInverse(className: string, methodName: string)
    requires '@' !in className && '@' !in methodName
    ensures ParseCallback(className + "@" + methodName) == (className, Some(methodName))
  {
    var parts := [className, methodName];
    assert Text.Join(parts, "@") == className + "@" + methodName by {
      assert parts[1..] == [methodName];
    }
    Text.ExplodeJoin(parts, '@');
  }

  /** A dynamic call for a rule registered with a closure calls exactly that
      closure with the call's own arguments. */
  lemma ClosureRuleDispatches(extensions: map<string, Handler>, snake: string -> string, name: string,
                              token: nat, parameters: seq<Arg>)
    requires snake(name) in extensions && extensions[snake(name)] == Closure(token)
    ensures DynamicCall(extensions, snake, "validate" + name, parameters) == Ok(Some(InvokeClosure(token, parameters)))
  {
    assert RuleSuffix("validate" + name) == name by {
      assert ("validate" + name)[8..] == name;
    }
  }

  /** A dynamic call for a rule registered as "C@m" calls method m of C. */
  lemma ClassRuleDispatches(extensions: map<string, Handler>, snake: string -> string, name: string,
                            className: string, methodName: string, parameters: seq<Arg>)
    requires '@' !in className && '@' !in methodName
    requires snake(name) in extensions && extensions[snake(name)] == ClassCallback(className + "@" + methodName)
    ensures DynamicCall(extensions, snake, "validate" + name, parameters)
            == Ok(Some(InvokeMethod(className, Some(methodName), parameters)))
  {
    assert RuleSuffix("validate" + name) == name by {
      assert ("validate" + name)[8..] == name;
    }
    ParseCallbackInverse(className, methodName);
    Text.OccursInside(className, "@", methodName);
  }
}
