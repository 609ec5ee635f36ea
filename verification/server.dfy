/** The two decisions the Express server makes itself: the answer of
    `GET /api/auth/status`, computed from the principal headers that the
    hosting platform's authentication proxy adds, and the catch-all route
    that answers JSON 404 under `/api/` and the single-page app elsewhere.

    Base64 decoding followed by `JSON.parse` is the parameter `decode`:
    `None` is a parse that throws, `Some(v)` the parsed value. */
module Server {
  import opened Wrappers
  import opened Text
  import opened Js

  const EmailClaimType := "http://schemas.xmlsoap.org/ws/2005/05/identity/claims/emailaddress"
  const StatusErrorMessage := "Failed to check authentication status"
  const DefaultProvider := "aad"
  const ApiNotFoundMessage := "API route not found"

  /** The request headers the handler reads; `None` for one the request
      does not carry. */
  datatype Headers = Headers(principal: Option<string>, principalIdp: Option<string>, principalName: Option<string>)

  /** A header as JavaScript sees it: a string or `undefined`. */
  function HeaderValue(h: Option<string>): (v: JsValue)
    ensures Truthy(v) <==> h.Some? && h.value != ""
  {
    if h.Some? then Str(h.value) else Undefined
  }

  /** The `user` object of the answer. A field that is `Undefined` is left
      out of the JSON text. */
  datatype User = User(id: JsValue, name: JsValue, email: JsValue, provider: JsValue)

  /** The three answers of the status route. */
  datatype StatusResponse =
    | SignedIn(user: User)        // 200 {authenticated: true, user}
    | SignedOut                   // 200 {authenticated: false, user: null}
    | StatusFailed(error: string) // 500 {error, authenticated: false}
  {
    function HttpStatus(): int {
      if StatusFailed? then 500 else 200
    }
  }

  /** `c.typ === EmailClaimType`; throws when `c` is `null` or `undefined`. */
  function IsEmailClaim(c: JsValue): (r: Completion<bool>)
    ensures r.Throw? <==> c.IsNullish()
    ensures r.Normal? ==> (r.value <==> OptionalGet(c, "typ") == Str(EmailClaimType))
  {
    var typ :- Get(c, "typ");
    Normal(typ == Str(EmailClaimType))
  }

  /** A claim the lookup accepts. */
  predicate MatchesEmail(c: JsValue) {
    !c.IsNullish() && OptionalGet(c, "typ") == Str(EmailClaimType)
  }

  /** The index where a left-to-right scan must stop: the first element
      that is `null`/`undefined` or an email claim, or `|items|`. */
  function FirstStop(items: seq<JsValue>): (k: nat)
    ensures k <= |items|
    ensures forall j :: 0 <= j < k ==> !items[j].IsNullish() && !MatchesEmail(items[j])
    ensures k < |items| ==> items[k].IsNullish() || MatchesEmail(items[k])
  {
    if items == [] || items[0].IsNullish() || MatchesEmail(items[0]) then 0
    else 1 + FirstStop(items[1..])
  }

  /** `claims.find(c => c.typ === EmailClaimType)` on an array: the first
      email claim, `undefined` when there is none, and a throw exactly when a
      `null` or `undefined` element comes before any email claim. */
  function FindEmailClaim(items: seq<JsValue>): (r: Completion<JsValue>)
    ensures var k := FirstStop(items);
            r == if k == |items| then Normal(Undefined)
                 else if items[k].IsNullish() then Throw
                 else Normal(items[k])
  {
    if items == [] then Normal(Undefined)
    else
      var hit :- IsEmailClaim(items[0]);
      if hit then Normal(items[0]) else FindEmailClaim(items[1..])
  }

  /** `userInfo.claims?.find(...)?.val`: `undefined` when there are no
      claims; a TypeError when `claims` is something other than an array
      (it has no callable `find`). */
  function EmailOf(info: JsValue): (r: Completion<JsValue>)
    ensures info.IsNullish() ==> r.Throw?
    ensures !info.IsNullish() && OptionalGet(info, "claims").IsNullish() ==> r == Normal(Undefined)
    ensures var claims := OptionalGet(info, "claims");
            !info.IsNullish() && !claims.IsNullish() && !claims.Array? ==> r == Throw
    ensures var claims := OptionalGet(info, "claims");
            !info.IsNullish() && claims.Array? ==>
              var items := claims.items;
              var k := FirstStop(items);
              r == if k == |items| then Normal(Undefined)
                   else if items[k].IsNullish() then Throw
                   else Normal(OptionalGet(items[k], "val"))
  {
    var claims :- Get(info, "claims");
    if claims.IsNullish() then Normal(Undefined)
    else if !claims.Array? then Throw
    else
      var found :- FindEmailClaim(claims.items);
      Normal(OptionalGet(found, "val"))
  }

  /** The `user` object built from the decoded principal and the headers. */
  function UserOf(info: JsValue, h: Headers): (r: Completion<User>)
    ensures r.Normal? <==> !info.IsNullish() && EmailOf(info).Normal?
    ensures r.Normal? ==>
      && r.value.id == (if Truthy(OptionalGet(info, "userId")) then OptionalGet(info, "userId")
                        else OptionalGet(info, "sid"))
      && r.value.name == (if Truthy(OptionalGet(info, "userDetails")) then OptionalGet(info, "userDetails")
                          else HeaderValue(h.principalName))
      && r.value.email == EmailOf(info).value
      && r.value.provider == (if h.principalIdp.Some? && h.principalIdp.value != ""
                              then Str(h.principalIdp.value) else Str(DefaultProvider))
  {
    if info.IsNullish() then Throw  // reading `userInfo.userId` throws
    else
      var userId := OptionalGet(info, "userId");
      var id := if Truthy(userId) then userId else OptionalGet(info, "sid");
      var details := OptionalGet(info, "userDetails");
      match EmailOf(info)
      case Throw => Throw
      case Normal(email) =>
        var idp := HeaderValue(h.principalIdp);
        Normal(User(id, Or(details, HeaderValue(h.principalName)), email, Or(idp, Str(DefaultProvider))))
  }

  /** The handler of `GET /api/auth/status`. Every exception in it is caught
      and answered with the 500 reply. */
  function AuthStatus(h: Headers, decode: string -> Option<JsValue>): (r: StatusResponse)
    ensures (h.principal.None? || h.principal.value == "") ==> r == SignedOut
    ensures r == SignedOut ==> h.principal.None? || h.principal.value == ""
    ensures h.principal.Some? && h.principal.value != "" && decode(h.principal.value).None?
            ==> r == StatusFailed(StatusErrorMessage)
    ensures r.SignedIn? ==>
            && h.principal.Some? && decode(h.principal.value).Some?
            && UserOf(decode(h.principal.value).value, h) == Normal(r.user)
    ensures h.principal.Some? && h.principal.value != "" && decode(h.principal.value).Some? ==>
              (r.SignedIn? <==> UserOf(decode(h.principal.value).value, h).Normal?)
    ensures h.principal.Some? && h.principal.value != "" && decode(h.principal.value).Some? ==>
              UserOf(decode(h.principal.value).value, h).Throw? ==> r == StatusFailed(StatusErrorMessage)
    ensures r.StatusFailed? ==> r.error == StatusErrorMessage && r.HttpStatus() == 500
  {
    var principal := HeaderValue(h.principal);
    if !Truthy(principal) then SignedOut
    else match decode(h.principal.value)
      case None => StatusFailed(StatusErrorMessage)
      case Some(info) =>
        match UserOf(info, h)
        case Throw => StatusFailed(StatusErrorMessage)
        case Normal(u) => SignedIn(u)
  }

  /** A principal that decodes to an object whose claims are absent, null,
      or an array without `null`/`undefined` elements is always answered as
      signed in, and its email is the `val` of the first email claim. */
  lemma ObjectPrincipalSignsIn(h: Headers, decode: string -> Option<JsValue>, fields: map<string, JsValue>)
    requires h.principal.Some? && h.principal.value != ""
    requires decode(h.principal.value) == Some(Object(fields))
    requires "claims" in fields ==> fields["claims"].Array? || fields["claims"].IsNullish()
    requires "claims" in fields && fields["claims"].Array? ==>
             forall i :: 0 <= i < |fields["claims"].items| ==> !fields["claims"].items[i].IsNullish()
    ensures AuthStatus(h, decode).SignedIn?
    ensures ("claims" !in fields || fields["claims"].IsNullish()) ==> AuthStatus(h, decode).user.email == Undefined
    ensures "claims" in fields && fields["claims"].Array? ==>
            var items := fields["claims"].items;
            var k := FirstStop(items);
            AuthStatus(h, decode).user.email == (if k == |items| then Undefined else OptionalGet(items[k], "val"))
  {
  }

  /** A principal that decodes to a string, number, boolean or array has no
      own fields: it is signed in, with every field taken from its fallback
      and no email. */
  lemma NonObjectPrincipalSignsIn(h: Headers, decode: string -> Option<JsValue>)
    requires h.principal.Some? && h.principal.value != ""
    requires decode(h.principal.value).Some?
    requires var v := decode(h.principal.value).value; !v.IsNullish() && !v.Object?
    ensures AuthStatus(h, decode).SignedIn?
    ensures var u := AuthStatus(h, decode).user;
            u.id == Undefined && u.name == HeaderValue(h.principalName) && u.email == Undefined
  {
  }

  /** A principal that decodes to `null`, or whose `claims` is neither
      absent, null nor an array, makes the handler throw: 500. */
  lemma MalformedPrincipalFails(h: Headers, decode: string -> Option<JsValue>)
    requires h.principal.Some? && h.principal.value != ""
    requires decode(h.principal.value) == Some(Null)
             || (decode(h.principal.value).Some? && decode(h.principal.value).value.Object?
                 && "claims" in decode(h.principal.value).value.fields
                 && var c := decode(h.principal.value).value.fields["claims"];
                    !c.Array? && !c.IsNullish())
    ensures AuthStatus(h, decode) == StatusFailed(StatusErrorMessage)
  {
  }

  // ---------------------------------------------------------------
  // Catch-all route
  // ---------------------------------------------------------------

  /** What the catch-all route does with a request no earlier route took. */
  datatype FallbackReply =
    | ApiNotFound(error: string, path: string) // 404 {error, path}
    | ServeIndexHtml                           // public/index.html
  {
    function HttpStatus(): int {
      if ApiNotFound? then 404 else 200
    }
  }

  function Fallback(originalUrl: string): (r: FallbackReply)
    ensures r.ApiNotFound? <==> StartsWith(originalUrl, "/api/")
    ensures r.ApiNotFound? ==> r == ApiNotFound(ApiNotFoundMessage, originalUrl) && r.HttpStatus() == 404
  {
    if StartsWith(originalUrl, "/api/") then ApiNotFound(ApiNotFoundMessage, originalUrl)
    else ServeIndexHtml
  }

  /** Every path below `/api/` gets the JSON 404 carrying that path; `/api`
      itself and a sibling such as `/apis` get the page. */
  lemma FallbackUnderApi(rest: string)
    ensures Fallback("/api/" + rest) == ApiNotFound(ApiNotFoundMessage, "/api/" + rest)
    ensures Fallback("/api") == ServeIndexHtml
    ensures Fallback("/apis" + rest) == ServeIndexHtml
  {
    assert ("/api/" + rest)[..5] == "/api/";
    assert ("/apis" + rest)[4] == 's';
  }
}
