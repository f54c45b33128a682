/**
  The newer call interceptor (`CosmosDbContainerInterceptor<T>`), bound to one
  container (endpoint, database, container). Its store is not the string-keyed
  manager of the older generation: it is abstract here. Reads from it are a
  function parameter `lookup`, and writes to it are returned as the list of
  `SetSessionTokenForContextAndFullyQualifiedContainer` calls the interceptor makes.
 */
module ContainerCallInterceptor {
  import opened Wrappers
  import opened SessionTokens
  import opened Invocations
  import opened Strings

  datatype MethodClassification = Read | Write

  /** The container an interceptor is bound to. */
  datatype ContainerIdentity = ContainerIdentity(accountEndpoint: string, databaseName: string, containerName: string)

  /** A call to the store's `SetSessionTokenForContextAndFullyQualifiedContainer`. */
  datatype StoreCall<C> = SetSessionToken(context: C, container: ContainerIdentity, token: SessionTokenWithSource)

  /** The result of the capture step: the value handed back and the store calls made. */
  datatype Captured<C> = Captured(returnValue: ReturnValue, storeCalls: seq<StoreCall<C>>)

  /**
    `ImmutableDictionary.Add`: adding a key again with the same value leaves the
    dictionary as it is; adding it with a different value throws.
   */
  function ImmutableAdd(table: map<string, MethodClassification>, name: string, c: MethodClassification)
    : (r: Option<map<string, MethodClassification>>)
    ensures name !in table ==> r == Some(table[name := c])
    ensures name in table ==> (r.Some? <==> table[name] == c) && (r.Some? ==> r.value == table)
  {
    if name !in table then Some(table[name := c])
    else if table[name] == c then Some(table)
    else None
  }

  /**
    `CosmosDbMethodNameToClassification`, in the order of the initialiser's
    `.Add` calls (the repeated `ReadContainerStreamAsync` appears once).
   */
  const CosmosDbMethodNameToClassification: map<string, MethodClassification> := map[
    "CreateItemAsync" := Write,
    "DeleteContainerAsync" := Write,
    "DeleteItemAsync" := Write,
    "PatchItemAsync" := Write,
    "ReadContainerAsync" := Read,
    "ReadItemAsync" := Read,
    "ReplaceContainerAsync" := Write,
    "ReplaceItemAsync" := Write,
    "ReplaceThroughputAsync" := Write,
    "UpsertItemAsync" := Write,
    "CreateItemStreamAsync" := Write,
    "DeleteContainerStreamAsync" := Write,
    "DeleteItemStreamAsync" := Write,
    "PatchItemStreamAsync" := Write,
    "ReadContainerStreamAsync" := Read,
    "ReadItemStreamAsync" := Read,
    "ReadManyItemsAsync" := Read,
    "ReplaceContainerStreamAsync" := Write,
    "ReplaceItemStreamAsync" := Write,
    "UpsertItemStreamAsync" := Write,
    "ReadManyItemsStreamAsync" := Read
  ]

  /**
    The initialiser adds `ReadContainerStreamAsync` a second time, with the
    value it already has, so that `.Add` leaves the dictionary unchanged; a
    second `.Add` with the other classification would have thrown.
   */
  lemma RepeatedAddIsHarmless()
    ensures ImmutableAdd(CosmosDbMethodNameToClassification, "ReadContainerStreamAsync", Read)
            == Some(CosmosDbMethodNameToClassification)
    ensures ImmutableAdd(CosmosDbMethodNameToClassification, "ReadContainerStreamAsync", Write) == None
  {
  }

  /** A method is classified Read exactly when its name starts with "Read"; every other entry is a Write. */
  lemma ReadIffNameStartsWithRead(name: string)
    requires name in CosmosDbMethodNameToClassification
    ensures CosmosDbMethodNameToClassification[name] == Read <==> StartsWith(name, "Read")
  {
    if StartsWith(name, "Read") {
      assert name[0] == 'R' && name[2] == 'a';
    } else {
      assert name[..4] != "Read";
    }
  }

  /** The source tag a captured token gets. */
  function SourceFor(c: MethodClassification): (s: SessionTokenSource)
    ensures s == FromRead <==> c == Read
    ensures s == FromWrite <==> c == Write
  {
    match c
    case Read => FromRead
    case Write => FromWrite
  }

  /**
    The two `TrySaveSessionTokenFromReturnValue` overloads: for a `Response<>`
    with a non-null `Session` header inside a context, one store call with the
    token tagged by the method's classification; an unknown method name is an
    error at that point. Anything else makes no store call.
   */
  function TrySaveSessionTokenFromReturnValue<C>(
    container: ContainerIdentity, methodName: string, returnValue: ReturnValue, context: Option<C>)
    : (r: Result<seq<StoreCall<C>>, InterceptError>)
    ensures r.Failure? <==> returnValue.Response? && returnValue.session.Some? && context.Some?
                            && methodName !in CosmosDbMethodNameToClassification
    ensures r.Failure? ==> r.error == UnknownMethod(methodName)
    ensures r.Success? ==> |r.value| <= 1
    ensures (r.Success? && |r.value| == 1) <==>
              (returnValue.Response? && returnValue.session.Some? && context.Some? && methodName in CosmosDbMethodNameToClassification)
    ensures r.Success? && |r.value| == 1 ==>
              r.value[0] == SetSessionToken(context.value, container,
                              SessionTokenWithSource(SourceFor(CosmosDbMethodNameToClassification[methodName]),
                                                     returnValue.session.value))
  {
    match returnValue
    case Response(session, _) =>
      if session.None? then Success([])
      else if context.None? then Success([])
      else if methodName !in CosmosDbMethodNameToClassification then Failure(UnknownMethod(methodName))
      else
        var classification := CosmosDbMethodNameToClassification[methodName];
        Success([SetSessionToken(context.value, container, SessionTokenWithSource(SourceFor(classification), session.value))])
    case _ => Success([])
  }

  /**
    The non-`Task` `InterceptReturnValue` overload: a null value is handed back
    with no store call; any other value goes to the capture step and is handed back.
   */
  function InterceptImmediateReturnValue<C>(
    container: ContainerIdentity, methodName: string, returnValue: ReturnValue, context: Option<C>)
    : (r: Result<Captured<C>, InterceptError>)
    ensures r.Success? ==> r.value.returnValue == returnValue
    ensures returnValue.NullReturn? ==> r == Success(Captured(returnValue, []))
    ensures r.Success? <==> TrySaveSessionTokenFromReturnValue(container, methodName, returnValue, context).Success?
    ensures r.Success? ==> r.value.storeCalls == TrySaveSessionTokenFromReturnValue(container, methodName, returnValue, context).value
  {
    if returnValue.NullReturn? then Success(Captured(returnValue, []))
    else
      match TrySaveSessionTokenFromReturnValue(container, methodName, returnValue, context)
      case Failure(e) => Failure(e)
      case Success(calls) => Success(Captured(returnValue, calls))
  }

  /**
    `InterceptReturnValue` after dynamic dispatch: a `Task<T>` is awaited and its
    value goes through the non-`Task` overload (a `Task` inside it is not awaited
    again); the result is a task with the same value.
   */
  function InterceptReturnValue<C>(
    container: ContainerIdentity, methodName: string, returnValue: ReturnValue, context: Option<C>)
    : (r: Result<Captured<C>, InterceptError>)
    ensures r.Success? ==> r.value.returnValue == returnValue
  {
    match returnValue
    case Task(result) =>
      (match InterceptImmediateReturnValue(container, methodName, result, context)
       case Failure(e) => Failure(e)
       case Success(captured) => Success(Captured(Task(captured.returnValue), captured.storeCalls)))
    case _ => InterceptImmediateReturnValue(container, methodName, returnValue, context)
  }

  /** What `InterceptReturnValue` sees once a task has been awaited. */
  function Awaited(returnValue: ReturnValue): ReturnValue {
    if returnValue.Task? then returnValue.result else returnValue
  }

  /**
    The capture step stores a token exactly once, tagged by the method's
    classification, iff the (awaited) value is a `Response<>` with a session
    header, inside a context, for a known method; null, non-`Response<>` values
    and nested tasks make no store call.
   */
  lemma CaptureStoresExactlyOnce<C>(
    container: ContainerIdentity, methodName: string, returnValue: ReturnValue, context: Option<C>)
    ensures var r := InterceptReturnValue(container, methodName, returnValue, context);
      var v := Awaited(returnValue);
      && (r.Failure? <==> v.Response? && v.session.Some? && context.Some? && methodName !in CosmosDbMethodNameToClassification)
      && (r.Success? && |r.value.storeCalls| > 0 <==>
            v.Response? && v.session.Some? && context.Some? && methodName in CosmosDbMethodNameToClassification)
      && (r.Success? && |r.value.storeCalls| > 0 ==>
            r.value.storeCalls == [SetSessionToken(context.value, container,
              SessionTokenWithSource(SourceFor(CosmosDbMethodNameToClassification[methodName]), v.session.value))])
  {
  }

  /**
    The session token the injection step uses: the store is asked only inside
    a context, and its answer may be none.
   */
  function TokenToInject<C>(container: ContainerIdentity, context: Option<C>, lookup: (C, ContainerIdentity) -> Option<string>)
    : (t: Option<string>)
    ensures context.None? ==> t.None?
    ensures context.Some? ==> t == lookup(context.value, container)
  {
    if context.Some? then lookup(context.value, container) else None
  }

  /**
    `Intercept`: inject the stored token into the options argument, proceed to
    the target, then capture the token from the return value and hand the value
    back. `context` is what `GetCurrentContextDelegate` returns, `lookup` is the
    store's `GetSessionTokenForContextFullyQualifiedContainer`, and `target`
    the container method behind the proxy. On success the store calls made are
    returned.
   */
  method Intercept<C>(container: ContainerIdentity, invocation: Invocation, context: Option<C>,
                      lookup: (C, ContainerIdentity) -> Option<string>, target: seq<Value> -> CallOutcome)
    returns (r: Result<seq<StoreCall<C>>, InterceptError>)
    requires invocation.Valid()
    modifies invocation, invocation.arguments
    ensures var injected := InjectSessionToken(invocation.parameters, old(invocation.arguments[..]),
                                               TokenToInject(container, context, lookup));
      && (injected.Failure? ==> r == Failure(injected.error) && invocation.arguments[..] == old(invocation.arguments[..])
                                && invocation.returnValue == old(invocation.returnValue))
      && (injected.Success? ==> invocation.arguments[..] == injected.value)
      && (injected.Success? && target(injected.value).Threw? ==>
            r == Failure(TargetFailed(target(injected.value).message)) && invocation.returnValue == old(invocation.returnValue))
      && (injected.Success? && target(injected.value).Returned? ==>
            var value := target(injected.value).value;
            var captured := InterceptReturnValue(container, invocation.methodName, value, context);
            && invocation.returnValue == value
            && (captured.Success? ==> r == Success(captured.value.storeCalls))
            && (captured.Failure? ==> r == Failure(captured.error)))
  {
    var injected := SetSessionTokenOnRequestOptionsParameter(
      invocation.parameters, invocation.arguments, TokenToInject(container, context, lookup));
    if injected.Failure? {
      return Failure(injected.error);
    }
    var outcome := target(invocation.arguments[..]);  // invocation.Proceed()
    if outcome.Threw? {
      return Failure(TargetFailed(outcome.message));
    }
    invocation.returnValue := outcome.value;
    var captured := InterceptReturnValue(container, invocation.methodName, invocation.returnValue, context);
    if captured.Failure? {
      return Failure(captured.error);
    }
    invocation.returnValue := captured.value.returnValue;
    r := Success(captured.value.storeCalls);
  }
}
