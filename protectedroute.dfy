/**
 * The route guard in front of every authenticated page. It reads the stored
 * token, takes the payload from the token's second `.`-separated segment,
 * decodes it, and either renders the protected page or removes the token and
 * redirects to the login page.
 *
 * The browser's `atob` + `JSON.parse` pair, followed by the read of
 * `decoded.exp` and its numeric conversion in `exp * 1000`, is the parameter
 * `decode`, a partial function: it yields nothing exactly when one of those
 * steps throws. That includes a payload that parses to `null`, and an `exp`
 * object, or an array element of `exp`, whose conversion throws because
 * neither its `valueOf` nor its `toString` yields a primitive (for example
 * `{"toString": 1}`). The clock `Date.now()` is the parameter `now`.
 */
module ProtectedRoute {
  import opened Wrappers
  import opened JsText

  /**
   * The decoded payload. `exp` is absent exactly when `exp * 1000` is NaN in
   * the browser: no `exp` at all (also when the payload is a number, string or
   * boolean rather than an object), a string that does not read as a number,
   * a non-array object whose conversion does not throw, or an array whose
   * joined text does not read as a number. A value JavaScript converts to a number is present as that
   * number: `null`, `false`, `""`, `[]` and `[null]` as 0, `true` as 1, a
   * numeric string or a one-element array such as `[5]` or `["5"]` as its
   * value.
   */
  datatype Claims = Claims(exp: Option<int>)

  /** What the guard renders. */
  datatype Route = RenderChildren | Navigate(to: JsString)

  /** The guard's rendering and whether it removes the stored token. */
  datatype Decision = Decision(route: Route, removeToken: bool)

  const LoginPath: JsString := Utf16("/login")

  const Dot: CodeUnit := '.' as int as CodeUnit

  /**
   * The value handed to `atob`: the second segment of `token.split('.')`, or,
   * when there is none, the string that `undefined` converts to.
   */
  function PayloadSegment(token: JsString): (seg: JsString)
    ensures Dot in token ==> |Split(token, Dot)| >= 2 && seg == Split(token, Dot)[1]
    ensures Dot !in token ==> seg == Utf16("undefined")
  {
    var parts := Split(token, Dot);
    SplitHasSecond(token, Dot);
    if |parts| >= 2 then parts[1] else Utf16("undefined")
  }

  /**
   * `Date.now() >= decoded.exp * 1000`: the clock in milliseconds has reached
   * the second `exp`. A NaN `exp` never compares as expired.
   */
  predicate Expired(claims: Claims, now: int)
    ensures claims.exp.None? ==> !Expired(claims, now)
    ensures claims.exp.Some? ==> (Expired(claims, now) <==> now / 1000 >= claims.exp.value)
  {
    claims.exp.Some? && now >= claims.exp.value * 1000
  }

  /** The guard's decision for the stored value `stored` of key `token`. */
  function Decide(stored: Option<JsString>, now: int, decode: JsString -> Option<Claims>): (d: Decision)
    // `!token`: nothing stored, or the empty string; storage is left alone.
    ensures stored.None? || stored == Some([]) ==> d == Decision(Navigate(LoginPath), false)
    ensures stored.Some? && stored.value != [] ==>
      match decode(PayloadSegment(stored.value))
      case None => d == Decision(Navigate(LoginPath), true)
      case Some(claims) =>
        if Expired(claims, now) then d == Decision(Navigate(LoginPath), true)
        else d == Decision(RenderChildren, false)
    // Only two outcomes, and the token survives whenever the page is rendered.
    ensures d.route == RenderChildren || d.route == Navigate(LoginPath)
    ensures d.route == RenderChildren ==> !d.removeToken
    ensures d.removeToken ==> stored.Some? && stored.value != []
  {
    if stored.None? || stored.value == [] then Decision(Navigate(LoginPath), false)
    else
      var decoded := decode(PayloadSegment(stored.value));
      if decoded.None? then Decision(Navigate(LoginPath), true)
      else if Expired(decoded.value, now) then Decision(Navigate(LoginPath), true)
      else Decision(RenderChildren, false)
  }

  /** The page is rendered exactly when a non-empty token decodes to claims that have not expired. */
  lemma RendersExactlyWhenValid(stored: Option<JsString>, now: int, decode: JsString -> Option<Claims>)
    ensures Decide(stored, now, decode).route == RenderChildren <==>
      && stored.Some? && stored.value != []
      && decode(PayloadSegment(stored.value)).Some?
      && !Expired(decode(PayloadSegment(stored.value)).value, now)
  {
  }

  /** The instant `now == exp * 1000` already counts as expired. */
  lemma ExpiryInstantIsExpired(token: JsString, exp: int, decode: JsString -> Option<Claims>)
    requires token != [] && decode(PayloadSegment(token)) == Some(Claims(Some(exp)))
    ensures Decide(Some(token), exp * 1000, decode) == Decision(Navigate(LoginPath), true)
  {
  }

  /**
   * A non-empty token without a `.` hands `atob` the string "undefined"; when
   * that does not decode, the token is removed and the login page shown.
   */
  lemma TokenWithoutDotIsRemoved(token: JsString, now: int, decode: JsString -> Option<Claims>)
    requires token != [] && Dot !in token && decode(Utf16("undefined")).None?
    ensures Decide(Some(token), now, decode) == Decision(Navigate(LoginPath), true)
  {
  }

  /** Expiry is monotone in time: a token accepted at `later` is accepted at every earlier instant. */
  lemma AcceptedEarlierToo(stored: Option<JsString>, earlier: int, later: int, decode: JsString -> Option<Claims>)
    requires earlier <= later
    requires Decide(stored, later, decode).route == RenderChildren
    ensures Decide(stored, earlier, decode).route == RenderChildren
  {
  }

  /** Only the payload segment matters: two tokens with the same payload segment get the same decision. */
  lemma DecisionDependsOnPayload(t1: JsString, t2: JsString, now: int, decode: JsString -> Option<Claims>)
    requires t1 != [] && t2 != []
    requires PayloadSegment(t1) == PayloadSegment(t2)
    ensures Decide(Some(t1), now, decode) == Decide(Some(t2), now, decode)
  {
  }

  /** The storage slot after the guard has acted on its decision. */
  function After(stored: Option<JsString>, d: Decision): Option<JsString>
  {
    if d.removeToken then None else stored
  }

  /**
   * A rejected token stays rejected: as long as nothing stores a new token
   * (the login form does, `src/pages/Login.jsx:27`), the next visit from the
   * slot the guard left behind redirects again and leaves storage as it is,
   * whatever the clock says.
   */
  lemma RejectedTokenStaysRejected(stored: Option<JsString>, now: int, later: int, decode: JsString -> Option<Claims>)
    requires Decide(stored, now, decode).route.Navigate?
    ensures var next := After(stored, Decide(stored, now, decode));
      Decide(next, later, decode) == Decision(Navigate(LoginPath), false)
  {
  }

  /** `localStorage`, reduced to its one slot `token`. */
  class LocalStorage {
    var token: Option<JsString>

    constructor (initial: Option<JsString>)
      ensures token == initial
    {
      token := initial;
    }
  }

  /** `ProtectedRoute` as the browser runs it: read the slot, decide, remove the token where the decision says so. */
  method Guard(storage: LocalStorage, now: int, decode: JsString -> Option<Claims>) returns (route: Route)
    modifies storage
    ensures route == Decide(old(storage.token), now, decode).route
    ensures storage.token == After(old(storage.token), Decide(old(storage.token), now, decode))
  {
    var token := storage.token;
    if token.None? || token.value == [] {
      return Navigate(LoginPath);
    }
    var decoded := decode(PayloadSegment(token.value));
    if decoded.None? {
      storage.token := None;
      return Navigate(LoginPath);
    }
    if Expired(decoded.value, now) {
      storage.token := None;
      return Navigate(LoginPath);
    }
    return RenderChildren;
  }
}
