/** Request sequences whose outcomes follow from the handlers' contracts alone. */
module Scenarios {
  import opened Wrappers
  import opened Validation
  import opened Directory
  import opened Session
  import opened AuthController

  /**
   * Signing up and then logging in with the same email and password opens a
   * session for the user just created, provided the User model's password
   * comparison accepts the password the user was created with.
   */
  method SignupThenLogin(store: UserStore, fullName: string, email: string, password: string,
                         nodeEnv: Option<string>, random: real, matchPasswords: (User, string) -> bool)
    returns (signedUp: Response, loggedIn: Response)
    requires store.Valid()
    requires 0.0 <= random < 1.0
    requires forall u: User :: matchPasswords(u, u.password)
    modifies store
    ensures signedUp.status == 201 ==>
      loggedIn.status == 200 && loggedIn.body == signedUp.body && loggedIn.cookie == signedUp.cookie
  {
    signedUp := Signup(store, SignupBody(Some(fullName), Some(email), Some(password)), nodeEnv, random);
    loggedIn := Login(store, LoginBody(Some(email), Some(password)), nodeEnv, matchPasswords);
  }

  /**
   * Ada Lovelace signs up, signs up again with the same email, logs in with a
   * wrong password and then with the right one.
   */
  method AdaLovelace() returns (first: Response, second: Response, wrong: Response, right: Response)
    ensures first.status == 201 && first.body.UserPayload? && first.body.user.email == "ada@x.com" && first.body.user.profilePicture != ""
    ensures second == Response(409, Message("Email already exists, please use a different email."), None)
    ensures wrong == Response(401, Message("Invalid email or password."), None)
    ensures right.status == 200 && right.body == first.body
    ensures right.cookie.Some? && right.cookie.value.SetCookie? && right.cookie.value.options.maxAge == 604_800_000
  {
    var store := new UserStore();
    var samePassword := (u: User, candidate: string) => u.password == candidate;
    var email, password := "ada@x.com", "secret1";
    AdaEmailAccepted();
    AdaPasswordLongEnough();
    var body := SignupBody(Some("Ada Lovelace"), Some(email), Some(password));
    assert AllFieldsPresent(body);
    first := Signup(store, body, None, 0.5);
    second := Signup(store, body, None, 0.25);
    var wrongBody, rightBody := LoginBody(Some(email), Some("wrong")), LoginBody(Some(email), Some(password));
    assert Present(wrongBody.password) && Present(rightBody.password);
    wrong := Login(store, wrongBody, None, samePassword);
    right := Login(store, rightBody, None, samePassword);
  }

  /** "ada@x.com" splits as "ada", "@", "x", ".", "com". */
  lemma AdaEmailAccepted()
    ensures MatchesEmailPattern("ada@x.com")
  {
    var email := "ada@x.com";
    assert email[..3] == "ada" && AllPartChars("ada");
    assert email[4..5] == "x" && AllPartChars("x");
    assert email[6..] == "com" && AllPartChars("com");
    assert SplitsAt(email, 3, 5);
  }

  /** "secret1" has seven characters, all in the Basic Multilingual Plane. */
  lemma AdaPasswordLongEnough()
    ensures !PasswordTooShort("secret1")
  {
    assert InBasicPlane("secret1");
    PasswordTooShortInBasicPlane("secret1");
  }
}
