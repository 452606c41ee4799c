/**
 * The admin credential token: AuthService.login issues the base64 of
 * "login:password" and AdminGuard decodes it, splits it on ':' and compares
 * the first two fields with the configured credentials.
 */
module Auth {
  import opened Wrappers
  import opened Strings
  import opened Constants
  import Base64
  import Utf8

  /** validateAdmin: both fields equal the configured ones. */
  predicate ValidateAdmin(login: string, password: string, admin: Credentials) {
    login == admin.login && password == admin.password
  }

  /** The token text: base64 of the UTF-8 bytes of login ':' password. */
  function Token(login: string, password: string): (t: string)
    ensures DecodedText(t) == Some(login + ":" + password)
  {
    var bytes := Utf8.Encode(login + ":" + password);
    Base64.DecodeEncode(bytes);
    Utf8.DecodeEncode(login + ":" + password);
    Base64.Encode(bytes)
  }

  /** login: unauthorized for wrong credentials, otherwise the token. */
  function Login(login: string, password: string, admin: Credentials): (r: Result<string>)
    ensures r.Ok? <==> login == admin.login && password == admin.password
    ensures r.Err? ==> r.error == Unauthorized
    ensures r.Ok? ==> DecodedText(r.value) == Some(admin.login + ":" + admin.password)
  {
    if ValidateAdmin(login, password, admin) then Ok(Token(login, password)) else Err(Unauthorized)
  }

  /** Buffer.from(token, "base64").toString("utf-8"), on well-formed input. */
  function DecodedText(token: string): Option<string> {
    match Base64.Decode(token)
    case None => None
    case Some(bytes) => Utf8.Decode(bytes)
  }

  /** The decoded token's first field is the login and its second the password; further fields are ignored. */
  predicate Grants(token: string, admin: Credentials) {
    match DecodedText(token)
    case None => false
    case Some(text) =>
      var fields := Split(text, ':');
      |fields| >= 2 && fields[0] == admin.login && fields[1] == admin.password
  }

  /**
   * canActivate: a missing or empty Authorization header is unauthorized;
   * otherwise the first "Bearer " is removed and the rest must grant access.
   */
  function CanActivate(authorization: Option<string>, admin: Credentials): (r: Result<bool>)
    ensures !Truthy(authorization) ==> r == Err(Unauthorized)
    ensures r.Ok? <==> Truthy(authorization) && Grants(ReplaceFirst(authorization.value, "Bearer ", ""), admin)
    ensures r.Ok? ==> r.value
    ensures r.Err? ==> r.error == Unauthorized
  {
    if !Truthy(authorization) then Err(Unauthorized)
    else if Grants(ReplaceFirst(authorization.value, "Bearer ", ""), admin) then Ok(true)
    else Err(Unauthorized)
  }

  /** Removing the first "Bearer " from "Bearer " + t gives t back. */
  lemma StripBearer(t: string)
    ensures ReplaceFirst("Bearer " + t, "Bearer ", "") == t
  {
    var s := "Bearer " + t;
    assert OccursAt(s, "Bearer ", 0) by { assert s[..7] == "Bearer "; }
    assert IndexOf(s, "Bearer ") == Some(0);
    assert s[7..] == t;
  }

  /** A token made of credentials decoded as text and split: login, then the password's fields. */
  lemma SplitCredentials(login: string, password: string)
    requires ':' !in login
    ensures Split(login + ":" + password, ':') == [login] + Split(password, ':')
  {
    assert login + ":" + password == login + [':'] + password;
    SplitJoin(login, ':', password);
  }

  /**
   * Round trip: with a login and a password free of ':', the token login
   * issues, sent as "Bearer <token>", is accepted by the guard.
   */
  lemma IssuedTokenAccepted(admin: Credentials)
    requires ':' !in admin.login && ':' !in admin.password
    ensures Login(admin.login, admin.password, admin).Ok?
    ensures CanActivate(Some("Bearer " + Login(admin.login, admin.password, admin).value), admin) == Ok(true)
  {
    var t := Login(admin.login, admin.password, admin).value;
    StripBearer(t);
    SplitCredentials(admin.login, admin.password);
    SplitWithoutSeparator(admin.password, ':');
    assert Split(admin.login + ":" + admin.password, ':') == [admin.login, admin.password];
    assert Grants(t, admin);
  }

  /**
   * The caveat: the token issued for credentials is accepted exactly when
   * neither the login nor the password contains ':'. A configured password
   * with ':' locks the admin out.
   */
  lemma IssuedTokenAcceptedIff(admin: Credentials)
    ensures Login(admin.login, admin.password, admin).Ok?
    ensures CanActivate(Some("Bearer " + Login(admin.login, admin.password, admin).value), admin) == Ok(true)
      <==> ':' !in admin.login && ':' !in admin.password
  {
    var t := Login(admin.login, admin.password, admin).value;
    StripBearer(t);
    var fields := Split(admin.login + ":" + admin.password, ':');
    if ':' !in admin.login && ':' !in admin.password {
      IssuedTokenAccepted(admin);
    } else if ':' in admin.login {
      assert ':' !in fields[0];
    } else {
      SplitCredentials(admin.login, admin.password);
      assert fields[1] == Split(admin.password, ':')[0];
      assert ':' !in fields[1];
    }
  }
}
