/**
  The newer cookie middlewares: one cookie per container code, named
  "csmsdb-" followed by the code in decimal. `CosmosDbSessionTokenCookiesMiddleware`
  stores tokens tagged with their source; `CosmosDbSessionTokenCookiesHttpMiddleware`
  stores plain strings. Both leave cookies off 401 and 403 responses.
 */
module ContainerCookies {
  import opened Wrappers
  import opened Strings
  import opened Decimal
  import opened SessionTokens
  import opened CookieChannel

  const CosmosDbSessionTokenCookiePrefix: string := "csmsdb-"

  /** `CookieNameForContainerCode`: the prefix, then the code as C# prints a `uint`. */
  function CookieNameForContainerCode(containerCode: uint32): (name: string)
    ensures StartsWith(name, CosmosDbSessionTokenCookiePrefix)
    ensures name[|CosmosDbSessionTokenCookiePrefix|..] == DecimalString(containerCode as nat)
  {
    StartsWithConcat(CosmosDbSessionTokenCookiePrefix, DecimalString(containerCode as nat));
    CosmosDbSessionTokenCookiePrefix + DecimalString(containerCode as nat)
  }

  /**
    `ContainerCodeFromCookieName`: `uint.TryParse` of what follows the prefix;
    none when that does not parse. It is only called on names that start with
    the prefix. A remainder of plain digits gives its value when that fits in
    32 bits; `ContainerCodeFromPaddedName` states the signed and padded forms.
   */
  function ContainerCodeFromCookieName(cookieName: string): (r: Option<uint32>)
    requires StartsWith(cookieName, CosmosDbSessionTokenCookiePrefix)
    ensures var rest := cookieName[|CosmosDbSessionTokenCookiePrefix|..];
      && (AllDigits(rest) ==> (r.Some? <==> |rest| > 0 && DigitsValue(rest) < UInt32Bound))
      && (AllDigits(rest) && r.Some? ==> r.value as int == DigitsValue(rest))
  {
    ParseUInt32(cookieName[|CosmosDbSessionTokenCookiePrefix|..])
  }

  /**
    A name made of the prefix, white space, an optional sign, digits and white
    space names the digits' value, when it fits in 32 bits and a minus sign
    stands only before zeros.
   */
  lemma ContainerCodeFromPaddedName(lead: string, sign: string, digits: string, trail: string)
    requires AllWhiteSpace(lead) && AllWhiteSpace(trail)
    requires sign == "" || sign == "+" || sign == "-"
    requires |digits| > 0 && AllDigits(digits)
    ensures var name := CosmosDbSessionTokenCookiePrefix + (lead + sign + digits + trail);
      var r := ContainerCodeFromCookieName(name);
      && (r.Some? <==> DigitsValue(digits) < UInt32Bound && (sign == "-" ==> DigitsValue(digits) == 0))
      && (r.Some? ==> r.value as int == DigitsValue(digits))
  {
    StartsWithConcat(CosmosDbSessionTokenCookiePrefix, lead + sign + digits + trail);
    ParseUInt32Accepts(lead, sign, digits, trail);
  }

  /** `ShouldIncludeCookiesForResponseStatusCode`: every status but 401 and 403. */
  function ShouldIncludeCookiesForResponseStatusCode(statusCode: int): (b: bool)
    ensures b <==> statusCode != 401 && statusCode != 403
  {
    statusCode != 401 && statusCode != 403
  }

  /** Every code's cookie name is read back as that code. */
  lemma AllContainerCodeNamesRoundTrip()
    ensures forall code: uint32 :: ContainerCodeFromCookieName(CookieNameForContainerCode(code)) == Some(code)
  {
    forall code: uint32 ensures ContainerCodeFromCookieName(CookieNameForContainerCode(code)) == Some(code) {
      ContainerCodeNameRoundTrip(code);
    }
  }

  /**
    `CosmosDbSessionTokenCookiesMiddleware`: names decode to container codes,
    request cookies become tokens from the incoming request, and a token is
    written back as its token string.
   */
  function SourcedCodec(): (codec: CookieCodec<uint32, SessionTokenWithSource, string>)
    ensures codec.prefix == CosmosDbSessionTokenCookiePrefix
    ensures forall code :: NameRoundTrips(codec, code)
    ensures forall s :: codec.incoming(s).source == FromIncomingRequest && codec.outgoing(codec.incoming(s)) == s
    ensures forall statusCode :: codec.carriesCookies(statusCode) <==> statusCode != 401 && statusCode != 403
  {
    AllContainerCodeNamesRoundTrip();
    CookieCodec(
      CosmosDbSessionTokenCookiePrefix,
      ParseUInt32,
      s => SessionTokenWithSource(FromIncomingRequest, s),
      ShouldIncludeCookiesForResponseStatusCode,
      CookieNameForContainerCode,
      (t: SessionTokenWithSource) => t.sessionToken)
  }

  /** `CosmosDbSessionTokenCookiesHttpMiddleware`: the same names, and cookie values stored as they are. */
  function PlainCodec(): (codec: CookieCodec<uint32, string, string>)
    ensures codec.prefix == CosmosDbSessionTokenCookiePrefix
    ensures forall code :: NameRoundTrips(codec, code)
    ensures forall s :: codec.incoming(s) == s && codec.outgoing(s) == s
    ensures forall statusCode :: codec.carriesCookies(statusCode) <==> statusCode != 401 && statusCode != 403
  {
    AllContainerCodeNamesRoundTrip();
    CookieCodec(
      CosmosDbSessionTokenCookiePrefix,
      ParseUInt32,
      s => s,
      ShouldIncludeCookiesForResponseStatusCode,
      CookieNameForContainerCode,
      s => s)
  }

  /** Both codecs read a prefixed request cookie as `ContainerCodeFromCookieName` of its name. */
  lemma KeyOfCookieIsContainerCode(c: Cookie<string>)
    ensures StartsWith(c.name, CosmosDbSessionTokenCookiePrefix) ==>
              && KeyOfCookie(c, SourcedCodec()) == ContainerCodeFromCookieName(c.name)
              && KeyOfCookie(c, PlainCodec()) == ContainerCodeFromCookieName(c.name)
    ensures !StartsWith(c.name, CosmosDbSessionTokenCookiePrefix) ==>
              KeyOfCookie(c, SourcedCodec()).None? && KeyOfCookie(c, PlainCodec()).None?
  {
  }

  /** The name written for a code is read back as that code. */
  lemma ContainerCodeNameRoundTrip(containerCode: uint32)
    ensures ContainerCodeFromCookieName(CookieNameForContainerCode(containerCode)) == Some(containerCode)
  {
    ParseDecimalString(containerCode);
  }

  /** Every code's cookie name round-trips through both codecs. */
  lemma EveryCodeRoundTrips(containerCode: uint32)
    ensures NameRoundTrips(SourcedCodec(), containerCode)
    ensures NameRoundTrips(PlainCodec(), containerCode)
  {
    ContainerCodeNameRoundTrip(containerCode);
  }

  /** Different codes get different cookie names, so one response never carries two cookies for a code. */
  lemma CookieNamesAreDistinct(a: uint32, b: uint32)
    requires a != b
    ensures CookieNameForContainerCode(a) != CookieNameForContainerCode(b)
  {
    ContainerCodeNameRoundTrip(a);
    ContainerCodeNameRoundTrip(b);
  }

  /** Every token read from request cookies is tagged as coming from the incoming request. */
  lemma {:induction false} IncomingTokensAreFromRequest(cookies: seq<Cookie<string>>)
    ensures forall k :: k in IncomingTokens(cookies, SourcedCodec()) ==>
              IncomingTokens(cookies, SourcedCodec())[k].source == FromIncomingRequest
  {
    if cookies != [] {
      IncomingTokensAreFromRequest(cookies[..|cookies| - 1]);
    }
  }

  /**
    Across two requests with the tagged codec: the cookies written for a
    dictionary (in the order the loop took) and sent back unchanged are read as
    the same codes with the same token strings, each now tagged as coming from
    the incoming request, so a write-sourced token loses its priority.
   */
  lemma SourcedCrossRequestRoundTrip(order: seq<uint32>, tokens: map<uint32, SessionTokenWithSource>)
    requires NoDuplicates(order)
    requires forall k :: k in order <==> k in tokens
    ensures var read := IncomingTokens(Returned(CookiesFor(order, tokens, SourcedCodec()), s => s), SourcedCodec());
      && read.Keys == tokens.Keys
      && forall k :: k in tokens ==> read[k] == SessionTokenWithSource(FromIncomingRequest, tokens[k].sessionToken)
  {
    forall k | k in tokens ensures NameRoundTrips(SourcedCodec(), k) {
      EveryCodeRoundTrips(k);
    }
    CookieRoundTrip(order, tokens, SourcedCodec(), s => s);
  }

  /** Across two requests with the plain codec, the dictionary comes back as it was. */
  lemma PlainCrossRequestRoundTrip(order: seq<uint32>, tokens: map<uint32, string>)
    requires NoDuplicates(order)
    requires forall k :: k in order <==> k in tokens
    ensures var read := IncomingTokens(Returned(CookiesFor(order, tokens, PlainCodec()), s => s), PlainCodec());
      read.Keys == tokens.Keys && forall k :: k in tokens ==> read[k] == tokens[k]
  {
    forall k | k in tokens ensures NameRoundTrips(PlainCodec(), k) {
      EveryCodeRoundTrips(k);
    }
    CookieRoundTrip(order, tokens, PlainCodec(), s => s);
  }

  /** The cookie for container code 716638 is named "csmsdb-716638". */
  lemma CookieNameExample()
    ensures CookieNameForContainerCode(716638) == "csmsdb-716638"
  {
  }

  /** 401 and 403 responses carry no session cookies; every other status does. */
  lemma UnauthorizedResponsesCarryNoCookies(statusCode: int)
    ensures SourcedCodec().carriesCookies(statusCode) <==> statusCode != 401 && statusCode != 403
    ensures PlainCodec().carriesCookies(statusCode) <==> statusCode != 401 && statusCode != 403
  {
  }

  /** "csmsdb-007" and "csmsdb-7" both name container code 7. */
  lemma LeadingZeroNamesShareCode(first: string, second: string)
    ensures KeyOfCookie(Cookie("csmsdb-007", first), SourcedCodec()) == Some(7 as uint32)
    ensures KeyOfCookie(Cookie("csmsdb-7", second), SourcedCodec()) == Some(7 as uint32)
  {
    SmallDigitValues();
    var c1, c2 := Cookie("csmsdb-007", first), Cookie("csmsdb-7", second);
    StartsWithConcat(CosmosDbSessionTokenCookiePrefix, "007");
    StartsWithConcat(CosmosDbSessionTokenCookiePrefix, "7");
    assert c1.name == CosmosDbSessionTokenCookiePrefix + "007";
    assert c2.name == CosmosDbSessionTokenCookiePrefix + "7";
    KeyOfCookieIsContainerCode(c1);
    KeyOfCookieIsContainerCode(c2);
  }

  /** When a request carries both "csmsdb-007" and "csmsdb-7", the later cookie's value is kept. */
  lemma LeadingZeroNamesCollide(first: string, second: string)
    ensures IncomingTokens([Cookie("csmsdb-007", first), Cookie("csmsdb-7", second)], SourcedCodec())
            == map[7 as uint32 := SessionTokenWithSource(FromIncomingRequest, second)]
  {
    LeadingZeroNamesShareCode(first, second);
    TwoCookiesForOneKey(Cookie("csmsdb-007", first), Cookie("csmsdb-7", second), SourcedCodec(), 7 as uint32);
  }

  /** A request cookie named by the prefix and a remainder reads as `uint.TryParse` of the remainder. */
  lemma PrefixedNameKey(rest: string, v: string)
    ensures KeyOfCookie(Cookie(CosmosDbSessionTokenCookiePrefix + rest, v), SourcedCodec()) == ParseUInt32(rest)
  {
    StartsWithConcat(CosmosDbSessionTokenCookiePrefix, rest);
  }

  /** "csmsdb-+7" names container code 7. */
  lemma PlusSignedNameIsRead(v: string)
    ensures KeyOfCookie(Cookie("csmsdb-+7", v), SourcedCodec()) == Some(7 as uint32)
  {
    PlusSignAccepted();
    PrefixedNameKey("+7", v);
    assert CosmosDbSessionTokenCookiePrefix + "+7" == "csmsdb-+7";
  }
}
