/** Optional values, results and the error taxonomy shared by both services. */
module Wrappers {

  /** A value that may be absent: `undefined` or SQL NULL in the system. */
  datatype Option<+T> = None | Some(value: T) {
    function GetOr(default: T): T {
      match this
      case Some(v) => v
      case None => default
    }
  }

  /** How a request fails, as the HTTP layer reports it. */
  datatype Error =
    | BadRequest(fields: seq<string>)   // the validation pipe rejected these properties
    | NotFound(id: string)              // a read found no row, or a delete affected none
    | QueryFailed(reason: string)       // the database refused the statement

  /** The outcome of a service call. */
  datatype Result<+T> = Ok(value: T) | Err(error: Error) {
    predicate IsFailure() {
      Err?
    }

    function PropagateFailure<U>(): Result<U>
      requires Err?
    {
      Err(error)
    }

    function Extract(): T
      requires Ok?
    {
      value
    }
  }

  /** JavaScript truthiness of an optional string: present and non-empty. */
  predicate Truthy(s: Option<string>) {
    s.Some? && s.value != ""
  }

  /** One property's verdict under the validation pipe. */
  datatype Rule = Rule(property: string, ok: bool)

  predicate AllOk(rules: seq<Rule>) {
    forall i :: 0 <= i < |rules| ==> rules[i].ok
  }

  /** The properties whose rule failed, in order: what the `400 Bad Request` lists. */
  function Violations(rules: seq<Rule>): (r: seq<string>)
    ensures |r| <= |rules|
    ensures r == [] <==> AllOk(rules)
    ensures forall i :: 0 <= i < |rules| && !rules[i].ok ==> rules[i].property in r
  {
    if |rules| == 0 then []
    else
      var rest := Violations(rules[1..]);
      assert forall i :: 1 <= i < |rules| ==> rules[i] == rules[1..][i - 1];
      if rules[0].ok then rest else [rules[0].property] + rest
  }
}
