/**
  What an intercepted container call looks like to the interceptors, with the
  reflection replaced by explicit descriptors: each parameter says whether its
  type is a `RequestOptions`, whether that type has a `SessionToken` property
  and whether `Activator.CreateInstance` yields an instance of it; each argument
  is null, an options object, or some other value; the return value is null, a
  `Response<>` carrying a `Session` header, a `Task` holding a value, or something else.
 */
module Invocations {
  import opened Wrappers

  datatype ParameterInfo = ParameterInfo(
    isRequestOptions: bool,      // IsAssignableTo(typeof(RequestOptions))
    hasSessionToken: bool,       // GetProperty("SessionToken") != null
    defaultConstructible: bool)  // Activator.CreateInstance returns non-null

  /** An argument value. Options objects carry their (nullable) session token. */
  datatype Value = Null | Options(sessionToken: Option<string>) | Plain(id: int)

  /** A return value as the dynamic dispatch sees it. */
  datatype ReturnValue =
    | NullReturn
    | Response(session: Option<string>, resource: int)  // Response<T>; Headers.Session may be null
    | Task(result: ReturnValue)                          // Task<T>, completed with `result`
    | Other(id: int)                                     // any other object (Database, Id, Scripts, ...)

  /** What the target of `invocation.Proceed()` did. */
  datatype CallOutcome = Returned(value: ReturnValue) | Threw(message: string)

  datatype InterceptError =
    | CannotCreateDefaultOptions(parameterIndex: nat)  // InvalidOperationException
    | TargetFailed(message: string)                    // the underlying call threw
    | UnknownMethod(name: string)                      // KeyNotFoundException from the table

  /** A parameter the injection step may touch. */
  predicate Eligible(p: ParameterInfo) {
    p.isRequestOptions && p.hasSessionToken
  }

  /** Arguments in options positions are options objects or null, as the CLR guarantees. */
  predicate WellTyped(parameters: seq<ParameterInfo>, arguments: seq<Value>) {
    |arguments| == |parameters| &&
    forall i :: 0 <= i < |parameters| ==> parameters[i].isRequestOptions ==> !arguments[i].Plain?
  }

  /** The first parameter that is a `RequestOptions` with a `SessionToken` property. */
  function FirstEligible(parameters: seq<ParameterInfo>): (r: Option<nat>)
    ensures r.Some? ==> r.value < |parameters| && Eligible(parameters[r.value])
    ensures r.Some? ==> forall j :: 0 <= j < r.value ==> !Eligible(parameters[j])
    ensures r.None? ==> forall j :: 0 <= j < |parameters| ==> !Eligible(parameters[j])
  {
    if |parameters| == 0 then None
    else if Eligible(parameters[0]) then Some(0)
    else match FirstEligible(parameters[1..])
      case None => None
      case Some(i) => Some(i + 1)
  }

  /**
    `sessionTokenProperty.SetValue(options, token)`: an options object gets the
    token, whatever it carried before; any other value is left as it is.
   */
  function WithSessionToken(options: Value, token: string): (r: Value)
    ensures r.Options? <==> options.Options?
    ensures options.Options? ==> r.sessionToken == Some(token)
    ensures !options.Options? ==> r == options
  {
    if options.Options? then Options(Some(token)) else options
  }

  /**
    The argument list after the injection step: the first eligible argument is
    replaced by a default options object when it is null (an error when none
    can be made), and its session token is set when `token` is present.
   */
  function InjectSessionToken(parameters: seq<ParameterInfo>, arguments: seq<Value>, token: Option<string>)
    : Result<seq<Value>, InterceptError>
    requires |arguments| == |parameters|
  {
    match FirstEligible(parameters)
    case None => Success(arguments)
    case Some(i) =>
      if arguments[i].Null? && !parameters[i].defaultConstructible then Failure(CannotCreateDefaultOptions(i))
      else
        var options := if arguments[i].Null? then Options(None) else arguments[i];
        Success(arguments[i := if token.Some? then WithSessionToken(options, token.value) else options])
  }

  /** Only the first eligible argument can change; everything else is left as it was. */
  lemma InjectTouchesOnlyFirstEligible(parameters: seq<ParameterInfo>, arguments: seq<Value>, token: Option<string>)
    requires |arguments| == |parameters|
    ensures var r := InjectSessionToken(parameters, arguments, token);
      && (r.Failure? <==> exists i :: FirstEligible(parameters) == Some(i) && arguments[i].Null? && !parameters[i].defaultConstructible)
      && (r.Success? ==> |r.value| == |arguments|)
      && (r.Success? ==> forall j :: 0 <= j < |arguments| && FirstEligible(parameters) != Some(j) ==> r.value[j] == arguments[j])
  {
  }

  /**
    At the first eligible position: a missing options argument becomes a default
    one even without a token; the token is written iff one is given; otherwise
    the argument's own token is kept.
   */
  lemma InjectAtFirstEligible(parameters: seq<ParameterInfo>, arguments: seq<Value>, token: Option<string>, i: nat)
    requires WellTyped(parameters, arguments)
    requires FirstEligible(parameters) == Some(i)
    requires !arguments[i].Null? || parameters[i].defaultConstructible
    ensures var r := InjectSessionToken(parameters, arguments, token);
      && r.Success?
      && r.value[i].Options?
      && (token.Some? ==> r.value[i].sessionToken == token)
      && (token.None? && arguments[i].Null? ==> r.value[i] == Options(None))
      && (token.None? && arguments[i].Options? ==> r.value[i] == arguments[i])
  {
  }

  /** Injecting a token an argument already carries changes nothing. */
  lemma InjectSameTokenIsNoOp(parameters: seq<ParameterInfo>, arguments: seq<Value>, token: string, i: nat)
    requires |arguments| == |parameters|
    requires FirstEligible(parameters) == Some(i) && arguments[i] == Options(Some(token))
    ensures InjectSessionToken(parameters, arguments, Some(token)) == Success(arguments)
  {
    assert arguments[i := Options(Some(token))] == arguments;
  }

  /** Running the injection step twice is the same as running it once. */
  lemma InjectIsIdempotent(parameters: seq<ParameterInfo>, arguments: seq<Value>, token: Option<string>)
    requires |arguments| == |parameters|
    requires InjectSessionToken(parameters, arguments, token).Success?
    ensures var once := InjectSessionToken(parameters, arguments, token).value;
      |once| == |parameters| && InjectSessionToken(parameters, once, token) == Success(once)
  {
    var once := InjectSessionToken(parameters, arguments, token).value;
    match FirstEligible(parameters)
    case None =>
    case Some(i) =>
      assert once[i].Options? || once[i].Plain?;
      assert once[i := once[i]] == once;
  }

  /** An intercepted call: `IInvocation` with its method, parameters, arguments and return value. */
  class Invocation {
    const methodName: string
    const parameters: seq<ParameterInfo>
    const arguments: array<Value>
    var returnValue: ReturnValue

    constructor (methodName: string, parameters: seq<ParameterInfo>, arguments: array<Value>)
      ensures this.methodName == methodName && this.parameters == parameters && this.arguments == arguments
      ensures returnValue == NullReturn
    {
      this.methodName := methodName;
      this.parameters := parameters;
      this.arguments := arguments;
      returnValue := NullReturn;
    }

    ghost predicate Valid()
      reads this, arguments
    {
      WellTyped(parameters, arguments[..])
    }
  }

  /**
    `SetSessionTokenOnRequestOptionsParameter`: a scan over the parameters that
    skips non-options parameters and options without a `SessionToken` property,
    and stops at the first one that has it. `token` is what the store returned
    for the current context, or none when there is no context or no token.
    The result tells whether a token was injected.
   */
  method SetSessionTokenOnRequestOptionsParameter(parameters: seq<ParameterInfo>, arguments: array<Value>, token: Option<string>)
    returns (r: Result<bool, InterceptError>)
    requires WellTyped(parameters, arguments[..])
    modifies arguments
    ensures match InjectSessionToken(parameters, old(arguments[..]), token)
            case Success(injected) => r.Success? && arguments[..] == injected
            case Failure(e) => r == Failure(e) && arguments[..] == old(arguments[..])
    ensures r.Success? ==> (r.value <==> token.Some? && FirstEligible(parameters).Some?)
  {
    var sessionTokenInjectedIntoCallParams := false;
    var i := 0;
    while i < |parameters|
      invariant 0 <= i <= |parameters|
      invariant forall j :: 0 <= j < i ==> !Eligible(parameters[j])
      invariant arguments[..] == old(arguments[..])
    {
      if !parameters[i].isRequestOptions {
        i := i + 1;
        continue;
      }
      if parameters[i].hasSessionToken {
        var argumentValue := arguments[i];
        if argumentValue.Null? {
          if !parameters[i].defaultConstructible {
            return Failure(CannotCreateDefaultOptions(i));
          }
          argumentValue := Options(None);
        }
        if token.Some? {
          argumentValue := WithSessionToken(argumentValue, token.value);
          sessionTokenInjectedIntoCallParams := true;
        }
        arguments[i] := argumentValue;
        break;
      }
      i := i + 1;
    }
    r := Success(sessionTokenInjectedIntoCallParams);
  }
}
