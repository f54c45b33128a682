/**
  `CosmosDbSessionTokenHttpMiddleware.InvokeAsync`, common to every revision:
  seed the store with the tokens read from the request cookies, register a
  response-start hook that writes the context's tokens as cookies, and run the
  rest of the pipeline once. The rest of the pipeline is described by what it
  does to the store before the response starts, the status it gives the
  response, and what it does to the store afterwards (too late for cookies).
 */
module SessionMiddleware {
  import opened Wrappers
  import opened TokenManager
  import opened CookieChannel

  /** The rest of the pipeline (`next`). */
  datatype Next<C, K, V> = Next(
    beforeResponseStarts: seq<Write<C, K, V>>,
    statusCode: int,
    afterResponseStarts: seq<Write<C, K, V>>)

  /**
    The hook registered with `OnStarting`: when the context has a dictionary,
    the response gets the cookies for its entries as they are now.
   */
  method OnStarting<C(==), K(==), V, W>(
    manager: SessionTokenManager<C, K, V>, codec: CookieCodec<K, V, W>, context: C, response: HttpResponse<W>)
    returns (found: bool, ghost order: seq<K>)
    modifies response
    ensures found <==> context in manager.table
    ensures response.statusCode == old(response.statusCode)
    ensures !found || !codec.carriesCookies(response.statusCode) ==> response.cookies == old(response.cookies)
    ensures found && codec.carriesCookies(response.statusCode) ==>
              && NoDuplicates(order)
              && (forall k :: k in order <==> k in manager.table[context].entries)
              && response.cookies == old(response.cookies) + CookiesFor(order, manager.table[context].entries, codec)
  {
    order := [];
    var snapshot;
    found, snapshot := manager.TryGetSessionTokensForHttpContext(context);
    if found {
      order := SetOutgoing(response, snapshot.entries, codec);
    }
  }

  /**
    What follows a successful seed: `next` runs until the response starts,
    the hook writes the cookies for the context's dictionary as it is then,
    and `next` runs to completion.
   */
  method RunSeeded<C(==), K(==), V, W>(
    manager: SessionTokenManager<C, K, V>, codec: CookieCodec<K, V, W>, context: C,
    response: HttpResponse<W>, next: Next<C, K, V>)
    returns (ghost order: seq<K>)
    requires manager.Valid() && context in manager.View()
    modifies manager, manager.table.Values, response
    ensures manager.Valid()
    ensures forall d :: d in manager.table.Values ==> d in old(manager.table.Values) || fresh(d)
    ensures var atStart := ContextAfterWrites(old(manager.View())[context], context, next.beforeResponseStarts);
              && response.statusCode == next.statusCode
              && (!codec.carriesCookies(next.statusCode) ==> response.cookies == old(response.cookies))
              && (codec.carriesCookies(next.statusCode) ==>
                    && NoDuplicates(order)
                    && (forall k :: k in order <==> k in atStart)
                    && response.cookies == old(response.cookies) + CookiesFor(order, atStart, codec))
              && manager.View() == ApplyWrites(old(manager.View()), next.beforeResponseStarts + next.afterResponseStarts)
  {
    // await _next(context), up to the point where the response starts
    ApplyWritesToStore(manager, next.beforeResponseStarts);
    response.statusCode := next.statusCode;

    // the OnStarting hook
    WritesAreIsolatedPerContext(old(manager.View()), context, next.beforeResponseStarts);
    ghost var atStart := manager.View();
    assert context in atStart;
    var found;
    found, order := OnStarting(manager, codec, context, response);
    assert found;
    assert manager.View() == atStart;

    // the rest of _next(context)
    ApplyWritesToStore(manager, next.afterResponseStarts);
    ApplyWritesConcatenates(old(manager.View()), next.beforeResponseStarts, next.afterResponseStarts);
  }

  /**
    `InvokeAsync(context)` for one request. `requestCookies` are the request's
    cookies in order, `response` the context's response, `codec` the revision's
    cookie codec. A context that already has a dictionary makes the seed throw
    and nothing else happens; otherwise the context is seeded with the tokens
    the request cookies carry and `RunSeeded` follows.
   */
  method InvokeAsync<C(==), K(==), V, W>(
    manager: SessionTokenManager<C, K, V>, codec: CookieCodec<K, V, W>, context: C,
    requestCookies: seq<Cookie<string>>, response: HttpResponse<W>, next: Next<C, K, V>)
    returns (r: Outcome<SeedError>, ghost order: seq<K>)
    requires manager.Valid()
    modifies manager, manager.table.Values, response
    ensures manager.Valid()
    ensures forall d :: d in manager.table.Values ==> d in old(manager.table.Values) || fresh(d)
    ensures context in old(manager.table) ==>
              && r == Fail(ContextAlreadySeeded)
              && manager.View() == old(manager.View())
              && response.cookies == old(response.cookies) && response.statusCode == old(response.statusCode)
    ensures context !in old(manager.table) ==>
              var incoming := IncomingTokens(requestCookies, codec);
              var seeded := old(manager.View())[context := incoming];
              var atStart := ContextAfterWrites(incoming, context, next.beforeResponseStarts);
              && r == Pass
              && response.statusCode == next.statusCode
              && (!codec.carriesCookies(next.statusCode) ==> response.cookies == old(response.cookies))
              && (codec.carriesCookies(next.statusCode) ==>
                    && NoDuplicates(order)
                    && (forall k :: k in order <==> k in atStart)
                    && response.cookies == old(response.cookies) + CookiesFor(order, atStart, codec))
              && manager.View() == ApplyWrites(seeded, next.beforeResponseStarts + next.afterResponseStarts)
  {
    order := [];
    var incoming := ReadIncoming(requestCookies, codec);
    var dictionary := new TokenDictionary(incoming);
    r := manager.SetSessionTokensForContext(context, dictionary);
    if r.Fail? {
      return;
    }
    assert manager.View() == old(manager.View())[context := incoming];
    order := RunSeeded(manager, codec, context, response, next);
  }
}
