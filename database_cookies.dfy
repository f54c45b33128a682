/**
  The older cookie middleware (`CookieCosmosDbHttpMiddleware`): one cookie per
  database, named "csmsdb-" followed by the URL-encoded database name, on every
  response whatever its status. `WebUtility.UrlEncode` and `UrlDecode` are not
  modelled; they are given as a pair of functions.
 */
module DatabaseCookies {
  import opened Wrappers
  import opened Strings
  import opened CookieChannel

  const CosmosDbSessionTokenCookiePrefix: string := "csmsdb-"

  /** `WebUtility.UrlEncode` and `WebUtility.UrlDecode`. */
  datatype UrlCodec = UrlCodec(encode: string -> string, decode: string -> string)

  /** Decoding gives back every encoded name. */
  ghost predicate DecodeInvertsEncode(u: UrlCodec) {
    forall s :: u.decode(u.encode(s)) == s
  }

  /** `CookieNameForDatabase`: the prefix, then the URL-encoded database name. */
  function CookieNameForDatabase(u: UrlCodec, databaseName: string): (name: string)
    ensures StartsWith(name, CosmosDbSessionTokenCookiePrefix)
    ensures name[|CosmosDbSessionTokenCookiePrefix|..] == u.encode(databaseName)
  {
    StartsWithConcat(CosmosDbSessionTokenCookiePrefix, u.encode(databaseName));
    CosmosDbSessionTokenCookiePrefix + u.encode(databaseName)
  }

  /**
    `DatabaseFromCookieName`: the URL-decoded remainder after the prefix. It is
    only called on names that start with the prefix.
   */
  function DatabaseFromCookieName(u: UrlCodec, cookieName: string): (databaseName: string)
    requires StartsWith(cookieName, CosmosDbSessionTokenCookiePrefix)
    ensures DecodeInvertsEncode(u) ==>
              forall db :: cookieName == CookieNameForDatabase(u, db) ==> databaseName == db
  {
    StartsWithConcat(CosmosDbSessionTokenCookiePrefix, cookieName[|CosmosDbSessionTokenCookiePrefix|..]);
    u.decode(cookieName[|CosmosDbSessionTokenCookiePrefix|..])
  }

  /**
    The codec: every prefixed name is a database name; a request cookie value
    is stored as a (non-null) token; every status carries cookies; a stored
    token, null included, is written as the cookie value.
   */
  function Codec(u: UrlCodec): (codec: CookieCodec<string, Option<string>, Option<string>>)
    ensures codec.prefix == CosmosDbSessionTokenCookiePrefix
    ensures forall s :: codec.keyOf(s) == Some(u.decode(s))
    ensures forall db :: codec.nameOf(db) == CookieNameForDatabase(u, db)
    ensures forall s :: codec.outgoing(codec.incoming(s)) == Some(s)
    ensures forall statusCode :: codec.carriesCookies(statusCode)
  {
    CookieCodec(
      CosmosDbSessionTokenCookiePrefix,
      s => Some(u.decode(s)),
      s => Some(s),
      _ => true,
      db => CookieNameForDatabase(u, db),
      v => v)
  }

  /**
    Unlike the container-code codecs, no prefixed request cookie is discarded:
    each one names the database its remainder decodes to.
   */
  lemma EveryPrefixedCookieIsRead(u: UrlCodec, c: Cookie<string>)
    ensures KeyOfCookie(c, Codec(u)).Some? <==> StartsWith(c.name, CosmosDbSessionTokenCookiePrefix)
    ensures KeyOfCookie(c, Codec(u)).Some? ==> KeyOfCookie(c, Codec(u)).value == DatabaseFromCookieName(u, c.name)
  {
  }

  /** With a decoder that inverts the encoder, every database name round-trips through its cookie name. */
  lemma DatabaseNameRoundTrips(u: UrlCodec, databaseName: string)
    requires DecodeInvertsEncode(u)
    ensures DatabaseFromCookieName(u, CookieNameForDatabase(u, databaseName)) == databaseName
    ensures NameRoundTrips(Codec(u), databaseName)
  {
  }

  /** No response status suppresses the cookies. */
  lemma EveryStatusCarriesCookies(u: UrlCodec, statusCode: int)
    ensures Codec(u).carriesCookies(statusCode)
  {
  }

  /** A browser sends a non-null cookie value back as it is. */
  function Echo(v: Option<string>): (s: string)
    ensures v.Some? ==> s == v.value
  {
    if v.Some? then v.value else ""
  }

  /**
    Across two requests: the cookies written for a dictionary whose tokens are
    all non-null, sent back unchanged, are read as the same dictionary.
   */
  lemma DatabaseCrossRequestRoundTrip(u: UrlCodec, order: seq<string>, tokens: map<string, Option<string>>)
    requires DecodeInvertsEncode(u)
    requires NoDuplicates(order)
    requires forall k :: k in order <==> k in tokens
    requires forall k :: k in tokens ==> tokens[k].Some?
    ensures var read := IncomingTokens(Returned(CookiesFor(order, tokens, Codec(u)), Echo), Codec(u));
      read.Keys == tokens.Keys && forall k :: k in tokens ==> read[k] == tokens[k]
  {
    forall k | k in tokens ensures NameRoundTrips(Codec(u), k) {
      DatabaseNameRoundTrips(u, k);
    }
    CookieRoundTrip(order, tokens, Codec(u), Echo);
  }
}
