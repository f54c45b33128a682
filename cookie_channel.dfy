/**
  The cookie channel shared by every middleware revision: request cookies are
  filtered by a name prefix and decoded into a token dictionary, and a token
  dictionary is written back as one response cookie per entry, unless the
  response status suppresses them. A revision is a `CookieCodec`: its prefix,
  how the rest of a name decodes to a key, how a cookie value becomes a stored
  value, which statuses carry cookies, and how an entry becomes a cookie.
 */
module CookieChannel {
  import opened Wrappers
  import opened Strings

  /** A cookie: a request cookie (`W` = string) or an appended response cookie. */
  datatype Cookie<W> = Cookie(name: string, value: W)

  datatype CookieCodec<!K, !V, W> = CookieCodec(
    prefix: string,
    keyOf: string -> Option<K>,  // decodes the cookie name with the prefix removed
    incoming: string -> V,       // request cookie value -> stored value
    carriesCookies: int -> bool,        // whether a response with this status carries cookies
    nameOf: K -> string,         // cookie name for a key, prefix included
    outgoing: V -> W)            // stored value -> response cookie value

  /** The key a request cookie contributes: a prefixed name whose remainder decodes. */
  function KeyOfCookie<K, V, W>(c: Cookie<string>, codec: CookieCodec<K, V, W>): (k: Option<K>)
    ensures !StartsWith(c.name, codec.prefix) ==> k.None?
    ensures StartsWith(c.name, codec.prefix) ==> k == codec.keyOf(c.name[|codec.prefix|..])
  {
    if StartsWith(c.name, codec.prefix) then codec.keyOf(c.name[|codec.prefix|..]) else None
  }

  /** The dictionary the request cookies produce, adding or updating in cookie order. */
  function IncomingTokens<K(==), V, W>(cookies: seq<Cookie<string>>, codec: CookieCodec<K, V, W>): map<K, V>
  {
    if cookies == [] then map[]
    else
      var c := cookies[|cookies| - 1];
      var before := IncomingTokens(cookies[..|cookies| - 1], codec);
      match KeyOfCookie(c, codec)
      case None => before
      case Some(k) => before[k := codec.incoming(c.value)]
  }

  /**
    `ReadIncomingCosmosDbDatabaseSessionTokensFromHttpRequest`: a `foreach` over
    the prefixed request cookies that `AddOrUpdate`s each decodable one.
   */
  method ReadIncoming<K(==), V, W>(cookies: seq<Cookie<string>>, codec: CookieCodec<K, V, W>)
    returns (result: map<K, V>)
    ensures result == IncomingTokens(cookies, codec)
  {
    result := map[];
    var i := 0;
    while i < |cookies|
      invariant 0 <= i <= |cookies|
      invariant result == IncomingTokens(cookies[..i], codec)
    {
      var cookie := cookies[i];
      assert cookies[..i + 1][..i] == cookies[..i];
      if StartsWith(cookie.name, codec.prefix) {
        var key := codec.keyOf(cookie.name[|codec.prefix|..]);
        if key.Some? {
          result := result[key.value := codec.incoming(cookie.value)];
        }
      }
      i := i + 1;
    }
    assert cookies[..i] == cookies;
  }

  /** A key is read iff some request cookie decodes to it. */
  lemma {:induction false} IncomingKeys<K, V, W>(cookies: seq<Cookie<string>>, codec: CookieCodec<K, V, W>, k: K)
    ensures k in IncomingTokens(cookies, codec) <==> exists i :: 0 <= i < |cookies| && KeyOfCookie(cookies[i], codec) == Some(k)
  {
    if cookies != [] {
      var prefix := cookies[..|cookies| - 1];
      IncomingKeys(prefix, codec, k);
      if k in IncomingTokens(prefix, codec) {
        var i :| 0 <= i < |prefix| && KeyOfCookie(prefix[i], codec) == Some(k);
        assert cookies[i] == prefix[i];
      }
      if exists i :: 0 <= i < |cookies| && KeyOfCookie(cookies[i], codec) == Some(k) {
        var i :| 0 <= i < |cookies| && KeyOfCookie(cookies[i], codec) == Some(k);
        if i < |prefix| {
          assert prefix[i] == cookies[i];
        }
      }
    }
  }

  /** When several cookies decode to the same key, the value of the last one is kept. */
  lemma {:induction false} IncomingLaterDuplicateWins<K, V, W>(cookies: seq<Cookie<string>>, codec: CookieCodec<K, V, W>, i: nat)
    requires i < |cookies| && KeyOfCookie(cookies[i], codec).Some?
    requires forall j :: i < j < |cookies| ==> KeyOfCookie(cookies[j], codec) != KeyOfCookie(cookies[i], codec)
    ensures KeyOfCookie(cookies[i], codec).value in IncomingTokens(cookies, codec)
    ensures IncomingTokens(cookies, codec)[KeyOfCookie(cookies[i], codec).value] == codec.incoming(cookies[i].value)
  {
    if i < |cookies| - 1 {
      var prefix := cookies[..|cookies| - 1];
      assert prefix[i] == cookies[i];
      forall j | i < j < |prefix| ensures KeyOfCookie(prefix[j], codec) != KeyOfCookie(prefix[i], codec) {
        assert prefix[j] == cookies[j];
      }
      IncomingLaterDuplicateWins(prefix, codec, i);
    }
  }

  /** Two request cookies for the same key leave only the second one's value. */
  lemma TwoCookiesForOneKey<K, V, W>(c1: Cookie<string>, c2: Cookie<string>, codec: CookieCodec<K, V, W>, k: K)
    requires KeyOfCookie(c1, codec) == Some(k) && KeyOfCookie(c2, codec) == Some(k)
    ensures IncomingTokens([c1, c2], codec) == map[k := codec.incoming(c2.value)]
  {
    assert [c1][..0] == [];
    assert IncomingTokens([c1], codec) == map[k := codec.incoming(c1.value)];
    assert [c1, c2][..1] == [c1];
    assert map[k := codec.incoming(c1.value)][k := codec.incoming(c2.value)] == map[k := codec.incoming(c2.value)];
  }

  /** A cookie without the prefix, or whose name does not decode, adds nothing. */
  lemma IgnoredCookieAddsNothing<K, V, W>(cookies: seq<Cookie<string>>, c: Cookie<string>, codec: CookieCodec<K, V, W>)
    requires KeyOfCookie(c, codec).None?
    ensures IncomingTokens(cookies + [c], codec) == IncomingTokens(cookies, codec)
  {
  }

  /** The response cookies for the keys of `order`, in that order. */
  function CookiesFor<K(==), V, W>(order: seq<K>, tokens: map<K, V>, codec: CookieCodec<K, V, W>): (cookies: seq<Cookie<W>>)
    requires forall k :: k in order ==> k in tokens
    ensures |cookies| == |order|
    ensures forall i :: 0 <= i < |order| ==> cookies[i] == Cookie(codec.nameOf(order[i]), codec.outgoing(tokens[order[i]]))
  {
    if order == [] then []
    else CookiesFor(order[..|order| - 1], tokens, codec) + [Cookie(codec.nameOf(order[|order| - 1]), codec.outgoing(tokens[order[|order| - 1]]))]
  }

  predicate NoDuplicates<K(==)>(s: seq<K>) {
    forall i, j :: 0 <= i < j < |s| ==> s[i] != s[j]
  }

  /** An HTTP response as the middlewares see it: its status code and the cookies appended to it. */
  class HttpResponse<W> {
    var statusCode: int
    var cookies: seq<Cookie<W>>

    constructor (statusCode: int)
      ensures this.statusCode == statusCode && cookies == []
    {
      this.statusCode := statusCode;
      cookies := [];
    }

    /** `Response.Cookies.Append(name, value)`. */
    method Append(name: string, value: W)
      modifies this
      ensures cookies == old(cookies) + [Cookie(name, value)]
      ensures statusCode == old(statusCode)
    {
      cookies := cookies + [Cookie(name, value)];
    }
  }

  /**
    `SetOutgoingCosmosDbSessionTokensOnHttpResponse`: nothing when the status
    is excluded; otherwise a `foreach` over the dictionary appending one cookie
    per entry. The dictionary's enumeration order is unspecified, so the ghost
    result `order` names the order that was taken: every key exactly once.
   */
  method SetOutgoing<K(==), V, W>(response: HttpResponse<W>, tokens: map<K, V>, codec: CookieCodec<K, V, W>)
    returns (ghost order: seq<K>)
    modifies response
    ensures response.statusCode == old(response.statusCode)
    ensures !codec.carriesCookies(response.statusCode) ==> order == [] && response.cookies == old(response.cookies)
    ensures codec.carriesCookies(response.statusCode) ==>
              && NoDuplicates(order)
              && (forall k :: k in order <==> k in tokens)
              && response.cookies == old(response.cookies) + CookiesFor(order, tokens, codec)
  {
    order := [];
    if !codec.carriesCookies(response.statusCode) {
      return;
    }
    var remaining := tokens.Keys;
    while remaining != {}
      invariant remaining <= tokens.Keys
      invariant NoDuplicates(order)
      invariant forall k :: k in order <==> k in tokens && k !in remaining
      invariant response.statusCode == old(response.statusCode)
      invariant response.cookies == old(response.cookies) + CookiesFor(order, tokens, codec)
      decreases remaining
    {
      var k :| k in remaining;
      response.Append(codec.nameOf(k), codec.outgoing(tokens[k]));
      assert (order + [k])[..|order|] == order;
      order := order + [k];
      remaining := remaining - {k};
    }
  }

  /** A key whose cookie name carries the prefix and decodes back to the key. */
  predicate NameRoundTrips<K(==), V, W>(codec: CookieCodec<K, V, W>, k: K) {
    StartsWith(codec.nameOf(k), codec.prefix) && codec.keyOf(codec.nameOf(k)[|codec.prefix|..]) == Some(k)
  }

  /** The request cookies a client sends back for the response cookies, with `echo` giving each value. */
  function Returned<W>(cookies: seq<Cookie<W>>, echo: W -> string): (r: seq<Cookie<string>>)
    ensures |r| == |cookies|
    ensures forall i :: 0 <= i < |cookies| ==> r[i] == Cookie(cookies[i].name, echo(cookies[i].value))
  {
    if cookies == [] then [] else Returned(cookies[..|cookies| - 1], echo) + [Cookie(cookies[|cookies| - 1].name, echo(cookies[|cookies| - 1].value))]
  }

  /** Each returned cookie decodes to the key it was written for and carries that key's value. */
  lemma ReturnedCookiesDecode<K, V, W>(order: seq<K>, tokens: map<K, V>, codec: CookieCodec<K, V, W>, echo: W -> string)
    requires forall k :: k in order ==> k in tokens && NameRoundTrips(codec, k)
    ensures var back := Returned(CookiesFor(order, tokens, codec), echo);
      forall j :: 0 <= j < |back| ==>
        KeyOfCookie(back[j], codec) == Some(order[j]) && back[j].value == echo(codec.outgoing(tokens[order[j]]))
  {
    var back := Returned(CookiesFor(order, tokens, codec), echo);
    forall j | 0 <= j < |back|
      ensures KeyOfCookie(back[j], codec) == Some(order[j]) && back[j].value == echo(codec.outgoing(tokens[order[j]]))
    {
      assert order[j] in order;
      assert back[j].name == codec.nameOf(order[j]);
    }
  }

  /**
    Cookies written for a dictionary and sent back unchanged are read as the
    same dictionary, each value passed through `outgoing`, the echo and
    `incoming`, whatever order they were written in.
   */
  lemma CookieRoundTrip<K, V, W>(order: seq<K>, tokens: map<K, V>, codec: CookieCodec<K, V, W>, echo: W -> string)
    requires NoDuplicates(order)
    requires forall k :: k in order <==> k in tokens
    requires forall k :: k in tokens ==> NameRoundTrips(codec, k)
    ensures var read := IncomingTokens(Returned(CookiesFor(order, tokens, codec), echo), codec);
      && read.Keys == tokens.Keys
      && forall k :: k in tokens ==> read[k] == codec.incoming(echo(codec.outgoing(tokens[k])))
  {
    ReturnedKeysAreRead(order, tokens, codec, echo);
    ReturnedKeysAreWritten(order, tokens, codec, echo);
    var read := IncomingTokens(Returned(CookiesFor(order, tokens, codec), echo), codec);
    forall k | k in tokens ensures k in read && read[k] == codec.incoming(echo(codec.outgoing(tokens[k]))) {
      var i :| 0 <= i < |order| && order[i] == k;
    }
  }

  /** Every written key is read back with its own value. */
  lemma ReturnedKeysAreRead<K, V, W>(order: seq<K>, tokens: map<K, V>, codec: CookieCodec<K, V, W>, echo: W -> string)
    requires NoDuplicates(order)
    requires forall k :: k in order ==> k in tokens && NameRoundTrips(codec, k)
    ensures var read := IncomingTokens(Returned(CookiesFor(order, tokens, codec), echo), codec);
      forall i :: 0 <= i < |order| ==> order[i] in read && read[order[i]] == codec.incoming(echo(codec.outgoing(tokens[order[i]])))
  {
    var back := Returned(CookiesFor(order, tokens, codec), echo);
    ReturnedCookiesDecode(order, tokens, codec, echo);
    forall i | 0 <= i < |order|
      ensures order[i] in IncomingTokens(back, codec)
      ensures IncomingTokens(back, codec)[order[i]] == codec.incoming(echo(codec.outgoing(tokens[order[i]])))
    {
      IncomingLaterDuplicateWins(back, codec, i);
    }
  }

  /** Only the written keys are read back. */
  lemma ReturnedKeysAreWritten<K, V, W>(order: seq<K>, tokens: map<K, V>, codec: CookieCodec<K, V, W>, echo: W -> string)
    requires forall k :: k in order ==> k in tokens && NameRoundTrips(codec, k)
    ensures IncomingTokens(Returned(CookiesFor(order, tokens, codec), echo), codec).Keys <= tokens.Keys
  {
    var back := Returned(CookiesFor(order, tokens, codec), echo);
    ReturnedCookiesDecode(order, tokens, codec, echo);
    forall k | k in IncomingTokens(back, codec) ensures k in tokens {
      IncomingKeys(back, codec, k);
      var i :| 0 <= i < |back| && KeyOfCookie(back[i], codec) == Some(k);
      assert order[i] in order;
    }
  }
}
