/** The `current_password` rule, reduced to what it does itself: choosing
    the credentials handed to the authentication guard. Whether they match
    is decided by the guard and is not modelled. */
module CurrentPassword {
  import opened Outcomes

  /** The credential key: the first parameter, or "email" without one. */
  function LookupKey(parameters: seq<string>): (key: string)
    ensures parameters == [] ==> key == "email"
    ensures parameters != [] ==> key == parameters[0]
  {
    if |parameters| > 0 then parameters[0] else "email"
  }

  /** validateCurrentPassword's credentials: the key maps to the second
      parameter when exactly two are given, otherwise to the request's input
      under that key (`request` is the ambient request); "password" maps to
      the value being validated, and wins if the key is also "password". */
  function Credentials(parameters: seq<string>, value: string, request: string -> Option<string>)
    : (credentials: map<string, Option<string>>)
    ensures credentials.Keys == {LookupKey(parameters), "password"}
    ensures credentials["password"] == Some(value)
    ensures LookupKey(parameters) != "password" ==>
              credentials[LookupKey(parameters)] ==
                (if |parameters| == 2 then Some(parameters[1]) else request(LookupKey(parameters)))
  {
    var key := LookupKey(parameters);
    var lookup := if |parameters| == 2 then Some(parameters[1]) else request(key);
    map[key := lookup]["password" := Some(value)]
  }
}
