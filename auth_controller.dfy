/**
 * The signup, login and logout request handlers. Each runs its checks in a
 * fixed order and answers with the first one that fails; only a signup that
 * passes them all changes the user directory.
 */
module AuthController {
  import opened Wrappers
  import opened Numerals
  import opened Validation
  import opened Directory
  import opened Session

  datatype SignupBody = SignupBody(fullName: Field, email: Field, password: Field)
  datatype LoginBody = LoginBody(email: Field, password: Field)

  /** The JSON a handler sends: an error message, or `{ success: true, user }`. */
  datatype Body = Message(message: string) | UserPayload(success: bool, user: User)

  datatype Response = Response(status: int, body: Body, cookie: Option<CookieOp>)

  const MsgAllFieldsRequired := "All fields are required."
  const MsgPasswordTooShort := "Password must be at least 6 characters long."
  const MsgInvalidEmail := "Please enter a valid email address."
  const MsgEmailTaken := "Email already exists, please use a different email."
  const MsgInvalidCredentials := "Invalid email or password."
  const MsgLoggedOut := "Logged out successfully"

  function Fail(status: int, message: string): Response {
    Response(status, Message(message), None)
  }

  /** The one answer login gives both for an unknown email and for a wrong password. */
  const InvalidCredentials := Fail(401, MsgInvalidCredentials)

  // ---------------------------------------------------------------------------
  // Avatar

  const AvatarUrlPrefix := "https://avatar.iran.liara.run/public/"

  /**
   * `Math.floor(Math.random() * 100 + 1)` for a draw `random` in [0, 1),
   * taken over exact reals.
   */
  function AvatarId(random: real): (n: int)
    requires 0.0 <= random < 1.0
    ensures 1 <= n <= 100
  {
    (random * 100.0 + 1.0).Floor
  }

  /** Every avatar 1..100 can be drawn. */
  lemma AvatarIdReachesAll(n: int)
    requires 1 <= n <= 100
    ensures 0.0 <= (n - 1) as real / 100.0 < 1.0 && AvatarId((n - 1) as real / 100.0) == n
  {
  }

  /**
   * `https://avatar.iran.liara.run/public/${avatarId}.png`: the avatar number,
   * printed in decimal without leading zeros, sits between the fixed prefix
   * and `.png`, and reads back as `id`.
   */
  function AvatarUrl(id: nat): (url: string)
    ensures |url| > |AvatarUrlPrefix| + 4
    ensures url[..|AvatarUrlPrefix|] == AvatarUrlPrefix && url[|url| - 4..] == ".png"
    ensures AllDigits(url[|AvatarUrlPrefix|..|url| - 4])
    ensures DecimalValue(url[|AvatarUrlPrefix|..|url| - 4]) == id
    ensures url[|AvatarUrlPrefix|] == '0' <==> id == 0
  {
    DecimalRoundTrip(id);
    var url := AvatarUrlPrefix + Decimal(id) + ".png";
    assert url[|AvatarUrlPrefix|..|url| - 4] == Decimal(id);
    url
  }

  // ---------------------------------------------------------------------------
  // Handlers

  predicate AllFieldsPresent(b: SignupBody) {
    Present(b.fullName) && Present(b.email) && Present(b.password)
  }

  /**
   * `signup`: presence, then password length, then email format, then the
   * duplicate check; a request that passes all four creates the user with a
   * drawn avatar, opens a session and answers 201. Every rejection leaves
   * the directory as it was.
   */
  method Signup(store: UserStore, body: SignupBody, nodeEnv: Option<string>, random: real) returns (res: Response)
    requires store.Valid()
    requires 0.0 <= random < 1.0
    modifies store
    ensures store.Valid()
    ensures !AllFieldsPresent(body) ==>
      res == Fail(400, MsgAllFieldsRequired) && unchanged(store)
    ensures AllFieldsPresent(body) && PasswordTooShort(body.password.value) ==>
      res == Fail(400, MsgPasswordTooShort) && unchanged(store)
    ensures AllFieldsPresent(body) && !PasswordTooShort(body.password.value) &&
            !MatchesEmailPattern(body.email.value) ==>
      res == Fail(400, MsgInvalidEmail) && unchanged(store)
    ensures AllFieldsPresent(body) && !PasswordTooShort(body.password.value) &&
            MatchesEmailPattern(body.email.value) && body.email.value in old(store.users) ==>
      res == Fail(409, MsgEmailTaken) && unchanged(store)
    ensures AllFieldsPresent(body) && !PasswordTooShort(body.password.value) &&
            MatchesEmailPattern(body.email.value) && body.email.value !in old(store.users) ==>
      var email := body.email.value;
      email in store.users &&
      var u := store.users[email];
      store.users == old(store.users)[email := u] &&
      u.fullName == body.fullName.value && u.password == body.password.value &&
      u.profilePicture == AvatarUrl(AvatarId(random)) &&
      (forall e :: e in old(store.users) ==> old(store.users)[e].id != u.id) &&
      res == Response(201, UserPayload(true, u), Some(SessionCookie(Sign(u.id), nodeEnv)))
  {
    if !AllFieldsPresent(body) {
      return Fail(400, MsgAllFieldsRequired);
    }
    var fullName, email, password := body.fullName.value, body.email.value, body.password.value;
    if PasswordTooShort(password) {
      return Fail(400, MsgPasswordTooShort);
    }
    EmailRegexTestIsPattern(email);
    if !EmailRegexTest(email) {
      return Fail(400, MsgInvalidEmail);
    }
    var existingUser := store.FindOne(email);
    if existingUser.Some? {
      return Fail(409, MsgEmailTaken);
    }
    var avatarId := AvatarId(random);
    var profilePicture := AvatarUrl(avatarId);
    var newUser := store.Create(email, fullName, password, profilePicture);
    var token := Sign(newUser.id);
    res := Response(201, UserPayload(true, newUser), Some(SessionCookie(token, nodeEnv)));
  }

  /**
   * `login`: presence of email and password (no length or format check), then
   * lookup, then the User model's password comparison, given here as
   * `matchPasswords`. An unknown email and a wrong password get the same
   * answer; the directory is only read.
   */
  method Login(store: UserStore, body: LoginBody, nodeEnv: Option<string>, matchPasswords: (User, string) -> bool)
    returns (res: Response)
    requires store.Valid()
    ensures !(Present(body.email) && Present(body.password)) ==> res == Fail(400, MsgAllFieldsRequired)
    ensures Present(body.email) && Present(body.password) && body.email.value !in store.users ==>
      res == InvalidCredentials
    ensures Present(body.email) && Present(body.password) && body.email.value in store.users ==>
      var u := store.users[body.email.value];
      if matchPasswords(u, body.password.value)
      then res == Response(200, UserPayload(true, u), Some(SessionCookie(Sign(u.id), nodeEnv)))
      else res == InvalidCredentials
    ensures res.status == 401 <==> res == InvalidCredentials
    ensures res.status == 200 ==> res.body.UserPayload? && res.body.user.email == body.email.value
  {
    if !(Present(body.email) && Present(body.password)) {
      return Fail(400, MsgAllFieldsRequired);
    }
    var email, password := body.email.value, body.password.value;
    var user := store.FindOne(email);
    if user.None? {
      return InvalidCredentials;
    }
    var isPasswordCorrect := matchPasswords(user.value, password);
    if !isPasswordCorrect {
      return InvalidCredentials;
    }
    var token := Sign(user.value.id);
    res := Response(200, UserPayload(true, user.value), Some(SessionCookie(token, nodeEnv)));
  }

  /**
   * `logout`: clears the session cookie and answers 200, whatever session
   * the client presents; the token itself is not looked at.
   */
  function Logout(presented: Option<Token>): (res: Response)
    ensures res.status == 200 && res.body == Message(MsgLoggedOut)
    ensures res.cookie == Some(ClearCookie(CookieName))
  {
    Response(200, Message(MsgLoggedOut), Some(ClearCookie(CookieName)))
  }

  /** Logging out answers the same whether or not, and with whatever token, the client was logged in. */
  lemma LogoutIgnoresSession(a: Option<Token>, b: Option<Token>)
    ensures Logout(a) == Logout(b)
  {
  }

  /** Every session cookie a handler sets has the same fixed attributes and lasts as long as its token. */
  lemma SessionCookieAttributes(id: UserId, nodeEnv: Option<string>)
    ensures var c := SessionCookie(Sign(id), nodeEnv);
      c.SetCookie? && c.name == "jwt" && c.token.userId == id &&
      c.options.maxAge == 604_800_000 && c.options.httpOnly && c.options.sameSite == "strict" &&
      (c.options.secure <==> nodeEnv == Some("production")) &&
      DurationMs(c.token.expiresIn) == Some(c.options.maxAge)
  {
  }
}
