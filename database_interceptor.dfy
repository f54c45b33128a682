/**
  The older call interceptor (`ContainerInterceptor<T>`), bound to one database
  name. It reads and writes the per-context manager directly: the token it
  injects is the manager's entry for (current context, database name), and a
  `Response<>` it sees inside a context overwrites that entry with the
  response's `Session` header, null or not.
 */
module DatabaseCallInterceptor {
  import opened Wrappers
  import opened Invocations
  import opened TokenManager

  /**
    The older manager: database name -> token. The header written by the
    interceptor may be null, so the stored value is an optional string.
   */
  type DatabaseTokenWrite<C> = Write<C, string, Option<string>>

  /** The value handed back by dynamic dispatch and the manager writes it makes. */
  datatype Dispatched<C> = Dispatched(returnValue: ReturnValue, writes: seq<DatabaseTokenWrite<C>>)

  /**
    `GetSessionTokenForContextAndDatabase` as the interceptor sees it: a
    `string?`, so a missing context, a missing database, and a stored null all
    read as null.
   */
  function StoredToken<C(==)>(manager: SessionTokenManager<C, string, Option<string>>, context: C, databaseName: string)
    : (t: Option<string>)
    reads manager, manager.table.Values
    ensures t.Some? <==> manager.GetSessionToken(context, databaseName).Some? && manager.GetSessionToken(context, databaseName).value.Some?
    ensures t.Some? ==> t == manager.GetSessionToken(context, databaseName).value
  {
    match manager.GetSessionToken(context, databaseName)
    case None => None
    case Some(stored) => stored
  }

  /** The same lookup on the manager's abstract value. */
  function TokenInView<C(==)>(view: map<C, map<string, Option<string>>>, context: C, databaseName: string): Option<string>
  {
    if context in view && databaseName in view[context] then view[context][databaseName] else None
  }

  /** The two lookups agree. */
  lemma StoredTokenIsTokenInView<C>(manager: SessionTokenManager<C, string, Option<string>>, context: C, databaseName: string)
    ensures StoredToken(manager, context, databaseName) == TokenInView(manager.View(), context, databaseName)
  {
  }

  /**
    The non-`Task` `DynamicDispatchAsyncVsSync` overload with both
    `DynamicDispatchReturnValueType` overloads: a null value and a
    non-`Response<>` value are handed back with no write; a `Response<>` inside
    a context writes its `Session` header under the database name and is
    handed back. A `Task` in this position is not a `Response<>`.
   */
  function DispatchImmediate<C>(databaseName: string, returnValue: ReturnValue, context: Option<C>): (r: Dispatched<C>)
    ensures r.returnValue == returnValue
    ensures |r.writes| == 1 <==> returnValue.Response? && context.Some?
    ensures |r.writes| != 1 ==> r.writes == []
    ensures |r.writes| == 1 ==> r.writes[0] == Write(context.value, databaseName, returnValue.session)
  {
    match returnValue
    case Response(session, _) =>
      if context.Some? then Dispatched(returnValue, [Write(context.value, databaseName, session)])
      else Dispatched(returnValue, [])
    case _ => Dispatched(returnValue, [])
  }

  /**
    `DynamicDispatchAsyncVsSync` on the `dynamic` return value: a `Task<T>` is
    awaited and its value goes through the non-`Task` overload; the result is a
    task with the same value.
   */
  function DynamicDispatchAsyncVsSync<C>(databaseName: string, returnValue: ReturnValue, context: Option<C>)
    : (r: Dispatched<C>)
    ensures r.returnValue == returnValue
    ensures |r.writes| <= 1
  {
    match returnValue
    case Task(result) =>
      var d := DispatchImmediate(databaseName, result, context);
      Dispatched(Task(d.returnValue), d.writes)
    case _ => DispatchImmediate(databaseName, returnValue, context)
  }

  /**
    The dispatch writes once iff the (awaited) value is a `Response<>` and a
    context exists, and then it writes the header as it is, null included,
    under the database name with no merge and no tag.
   */
  lemma DispatchWritesHeaderUnchecked<C>(databaseName: string, returnValue: ReturnValue, context: Option<C>)
    ensures var r := DynamicDispatchAsyncVsSync(databaseName, returnValue, context);
      var v := if returnValue.Task? then returnValue.result else returnValue;
      && (|r.writes| == 1 <==> v.Response? && context.Some?)
      && (|r.writes| == 1 ==> r.writes[0] == Write(context.value, databaseName, v.session))
  {
  }

  /**
    Consequence: a `Response<>` without a `Session` header hides a token the
    context already had for this database; the next injection for that
    database finds nothing.
   */
  lemma NullHeaderHidesKnownToken<C>(
    view: map<C, map<string, Option<string>>>, databaseName: string, context: C, resource: int)
    ensures var d := DynamicDispatchAsyncVsSync(databaseName, Response(None, resource), Some(context));
      TokenInView(ApplyWrites(view, d.writes), context, databaseName) == None
  {
  }

  /** A response's header from one interceptor reaches only its own database's entry. */
  lemma DispatchTouchesOnlyItsDatabase<C>(
    view: map<C, map<string, Option<string>>>, databaseName: string, other: string,
    returnValue: ReturnValue, context: C)
    requires other != databaseName
    ensures var d := DynamicDispatchAsyncVsSync(databaseName, returnValue, Some(context));
      TokenInView(ApplyWrites(view, d.writes), context, other) == TokenInView(view, context, other)
  {
  }

  /** The token to inject: asked for only inside a context. */
  function TokenToInject<C(==)>(manager: SessionTokenManager<C, string, Option<string>>, context: Option<C>, databaseName: string)
    : (t: Option<string>)
    reads manager, manager.table.Values
    ensures context.None? ==> t.None?
    ensures context.Some? ==> t == StoredToken(manager, context.value, databaseName)
  {
    if context.Some? then StoredToken(manager, context.value, databaseName) else None
  }

  /**
    `Intercept`: inject the stored token into the options argument, proceed to
    the target, dispatch on the return value and hand it back. `context` is
    `CurrentContext`, `target` the container method behind the proxy. The
    writes are made to `manager` through `SetSessionTokenForContextAndDatabase`.
   */
  method Intercept<C(==)>(databaseName: string, invocation: Invocation, context: Option<C>,
                          manager: SessionTokenManager<C, string, Option<string>>, target: seq<Value> -> CallOutcome)
    returns (r: Outcome<InterceptError>)
    requires invocation.Valid() && manager.Valid()
    modifies invocation, invocation.arguments, manager, manager.table.Values
    ensures manager.Valid()
    ensures forall d :: d in manager.table.Values ==> d in old(manager.table.Values) || fresh(d)
    ensures var injected := InjectSessionToken(invocation.parameters, old(invocation.arguments[..]),
                                               old(TokenToInject(manager, context, databaseName)));
      && (injected.Failure? ==> r == Fail(injected.error) && invocation.arguments[..] == old(invocation.arguments[..])
                                && invocation.returnValue == old(invocation.returnValue)
                                && manager.View() == old(manager.View()))
      && (injected.Success? ==> invocation.arguments[..] == injected.value)
      && (injected.Success? && target(injected.value).Threw? ==>
            r == Fail(TargetFailed(target(injected.value).message)) && invocation.returnValue == old(invocation.returnValue)
            && manager.View() == old(manager.View()))
      && (injected.Success? && target(injected.value).Returned? ==>
            var d := DynamicDispatchAsyncVsSync(databaseName, target(injected.value).value, context);
            && r == Pass
            && invocation.returnValue == target(injected.value).value
            && manager.View() == ApplyWrites(old(manager.View()), d.writes))
  {
    var injected := SetSessionTokenOnRequestOptionsParameter(
      invocation.parameters, invocation.arguments, TokenToInject(manager, context, databaseName));
    if injected.Failure? {
      return Fail(injected.error);
    }
    var outcome := target(invocation.arguments[..]);  // invocation.Proceed()
    if outcome.Threw? {
      return Fail(TargetFailed(outcome.message));
    }
    invocation.returnValue := outcome.value;
    var dispatched := DynamicDispatchAsyncVsSync(databaseName, invocation.returnValue, context);
    ApplyWritesToStore(manager, dispatched.writes);
    invocation.returnValue := dispatched.returnValue;
    r := Pass;
  }
}
