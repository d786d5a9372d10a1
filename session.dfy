/**
 * The session a successful signup or login opens: a token signed for the
 * user's identity with a seven-day expiry, carried in the `jwt` cookie.
 */
module Session {
  import opened Wrappers
  import opened Numerals
  import Directory

  const CookieName: string := "jwt"

  /** The `expiresIn` option given to the token signer. */
  const ExpiresIn: string := "7d"

  /** The cookie's `maxAge`: seven days in milliseconds. */
  const MaxAgeMs: nat := 7 * 24 * 60 * 60 * 1000

  /** A signed token, opaque here: the identity it names and the expiry it was signed with. */
  datatype Token = Token(userId: Directory.UserId, expiresIn: string)

  datatype CookieOptions = CookieOptions(maxAge: nat, httpOnly: bool, sameSite: string, secure: bool)

  /** What a handler does to the client's cookie jar. */
  datatype CookieOp =
    | SetCookie(name: string, token: Token, options: CookieOptions)
    | ClearCookie(name: string)

  /** `jwt.sign({ userId }, secret, { expiresIn: "7d" })`; the secret and the signature are not modelled. */
  function Sign(userId: Directory.UserId): (t: Token)
    ensures t.userId == userId && DurationMs(t.expiresIn) == Some(MaxAgeMs)
  {
    TokenAndCookieLifetimesAgree();
    Token(userId, ExpiresIn)
  }

  /**
   * `res.cookie("jwt", token, { maxAge, httpOnly: true, sameSite: "strict", secure })`,
   * with `secure` set when `process.env.NODE_ENV === "production"` (nodeEnv is None
   * when the variable is unset). A cookie for a seven-day token expires with it.
   */
  function SessionCookie(token: Token, nodeEnv: Option<string>): (c: CookieOp)
    ensures c.SetCookie? && c.name == CookieName && c.token == token
    ensures c.options.httpOnly && c.options.sameSite == "strict"
    ensures c.options.secure <==> nodeEnv == Some("production")
    ensures token.expiresIn == ExpiresIn ==> DurationMs(token.expiresIn) == Some(c.options.maxAge)
  {
    TokenAndCookieLifetimesAgree();
    SetCookie(CookieName, token, CookieOptions(MaxAgeMs, true, "strict", nodeEnv == Some("production")))
  }

  /** Seconds in one unit of a duration: s, m, h, d or w. */
  function UnitSeconds(unit: char): Option<nat> {
    match unit
    case 's' => Some(1)
    case 'm' => Some(60)
    case 'h' => Some(60 * 60)
    case 'd' => Some(24 * 60 * 60)
    case 'w' => Some(7 * 24 * 60 * 60)
    case _ => None
  }

  /**
   * Milliseconds denoted by a duration of the form `<digits><unit>`, as the
   * token signer reads `expiresIn`; always whole seconds, since the signer
   * stores the expiry in seconds.
   */
  function DurationMs(s: string): (r: Option<nat>)
    ensures r.Some? ==> r.value % 1000 == 0
  {
    if |s| < 2 || !AllDigits(s[..|s| - 1]) || UnitSeconds(s[|s| - 1]).None? then None
    else
      var seconds: nat := DecimalValue(s[..|s| - 1]) * UnitSeconds(s[|s| - 1]).value;
      WholeSeconds(seconds);
      Some(seconds * 1000)
  }

  lemma WholeSeconds(seconds: nat)
    ensures (seconds * 1000) % 1000 == 0
  {
  }

  /** The token and the cookie that carries it expire together: "7d" is exactly `maxAge`. */
  lemma TokenAndCookieLifetimesAgree()
    ensures DurationMs(ExpiresIn) == Some(MaxAgeMs)
  {
    assert ExpiresIn[..1] == "7";
    assert DecimalValue("7") == 7 by {
      assert "7"[..0] == [];
    }
  }
}
