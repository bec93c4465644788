/** The user routes' validators (src/features/users/sanitize.ts). */
module UserSanitize {
  import opened Common
  import opened Strings
  import opened Validation

  const CreateUser: Validator := Validator([], [
    ("username", Scalar(Text(true, 3, Some(30)))),
    ("password", Scalar(Text(true, 6, Some(30))))])

  const GetUser: Validator := Validator([("username", Scalar(Text(true, 0, None)))], [])

  const DeleteUser: Validator := Validator([("username", Scalar(Text(true, 0, None)))], [])

  const LoginUser: Validator := Validator([], [
    ("username", Scalar(Text(true, 0, None))),
    ("password", Scalar(Text(true, 6, Some(30))))])

  const ChangePasswordUser: Validator := Validator([], [
    ("currentPassword", Scalar(Text(true, 6, Some(30)))),
    ("password", Scalar(Text(true, 6, Some(30))))])

  /** Sign-up: no parameters; a username of 3..30 and a password of 6..30
      characters once trimmed and lower-cased; nothing else in the body. */
  lemma CreateUserRules(params: Part, body: Part, ps: Parsers)
    ensures CheckRequest(CreateUser, params, body, ps).Ok? <==>
              && params == map[]
              && TextWithin(body, "username", 3, 30) && TextWithin(body, "password", 6, 30)
              && body.Keys <= {"username", "password"}
  {
    EmptyPart(params, ps);
    PartOkUnfold(CreateUser.body, body, ps);
    TextRule(body, "username", true, 3, Some(30), ps);
    TextRule(body, "password", true, 6, Some(30), ps);
  }

  /** Looking a user up, or deleting one: a non-empty `username` parameter and
      nothing else; an empty body. */
  lemma UsernameParamRules(v: Validator, params: Part, body: Part, ps: Parsers)
    requires v == GetUser || v == DeleteUser
    ensures CheckRequest(v, params, body, ps).Ok? <==>
              TextGiven(params, "username") && params.Keys <= {"username"} && body == map[]
  {
    EmptyPart(body, ps);
    PartOkUnfold(v.params, params, ps);
    TextRule(params, "username", true, 0, None, ps);
  }

  /** Logging in: a non-empty username with no length bound, a password of
      6..30 characters; nothing else. */
  lemma LoginUserRules(params: Part, body: Part, ps: Parsers)
    ensures CheckRequest(LoginUser, params, body, ps).Ok? <==>
              && params == map[]
              && TextGiven(body, "username") && TextWithin(body, "password", 6, 30)
              && body.Keys <= {"username", "password"}
  {
    EmptyPart(params, ps);
    PartOkUnfold(LoginUser.body, body, ps);
    TextRule(body, "username", true, 0, None, ps);
    TextRule(body, "password", true, 6, Some(30), ps);
  }

  /** Changing a password: the current and the new password, each of 6..30
      characters; nothing else. */
  lemma ChangePasswordUserRules(params: Part, body: Part, ps: Parsers)
    ensures CheckRequest(ChangePasswordUser, params, body, ps).Ok? <==>
              && params == map[]
              && TextWithin(body, "currentPassword", 6, 30) && TextWithin(body, "password", 6, 30)
              && body.Keys <= {"currentPassword", "password"}
  {
    EmptyPart(params, ps);
    PartOkUnfold(ChangePasswordUser.body, body, ps);
    TextRule(body, "currentPassword", true, 6, Some(30), ps);
    TextRule(body, "password", true, 6, Some(30), ps);
  }

  /** Where each key of the sign-up and login bodies finds its rule. */
  lemma CredentialRulesFor()
    ensures Names(CreateUser.body) == {"username", "password"} == Names(LoginUser.body)
    ensures RuleFor(CreateUser.body, "username") == Scalar(Text(true, 3, Some(30)))
    ensures RuleFor(LoginUser.body, "username") == Scalar(Text(true, 0, None))
    ensures RuleFor(CreateUser.body, "password") == Scalar(Text(true, 6, Some(30)))
    ensures RuleFor(LoginUser.body, "password") == Scalar(Text(true, 6, Some(30)))
  {
    var c, l := CreateUser.body, LoginUser.body;
    assert c[1..][1..] == [] && l[1..][1..] == [];
    assert Names(c[1..]) == {"password"} && Names(l[1..]) == {"password"};
  }

  /** Whatever sign-up accepts, login accepts too, converted the same way: the
      credentials a user signed up with can always be sent to log in. */
  lemma SignUpBodyLogsIn(params: Part, body: Part, ps: Parsers)
    requires CheckRequest(CreateUser, params, body, ps).Ok?
    ensures CheckRequest(LoginUser, params, body, ps) == CheckRequest(CreateUser, params, body, ps)
  {
    assert PartOk(CreateUser.body, body, ps);
    LoginAcceptsSignUp(body, ps);
    CheckRequestAlike(CreateUser, LoginUser, params, body, ps);
  }

  /** The login body schema accepts every sign-up body, converted alike. */
  lemma LoginAcceptsSignUp(body: Part, ps: Parsers)
    requires PartOk(CreateUser.body, body, ps)
    ensures PartOk(LoginUser.body, body, ps)
    ensures ConvertPart(LoginUser.body, body, ps) == ConvertPart(CreateUser.body, body, ps)
  {
    var c, l := CreateUser.body, LoginUser.body;
    CredentialRulesFor();
    assert FieldOk(c[0].1, Lookup(body, "username"), ps);
    assert FieldOk(c[1].1, Lookup(body, "password"), ps);
    assert l[0] == ("username", Scalar(Text(true, 0, None)));
    assert l[1] == c[1];
    forall i | 0 <= i < |l|
      ensures FieldOk(l[i].1, Lookup(body, l[i].0), ps)
    {
      assert i == 0 || i == 1;
    }
    CredentialsConvertAlike(body, ps);
  }

  /** Sign-up and login convert every body alike: their rules differ only in bounds. */
  lemma CredentialsConvertAlike(body: Part, ps: Parsers)
    ensures ConvertPart(LoginUser.body, body, ps) == ConvertPart(CreateUser.body, body, ps)
  {
    CredentialRulesFor();
    forall k | k in body && k in Names(LoginUser.body)
      ensures ConvertField(RuleFor(LoginUser.body, k), body[k], ps) == ConvertField(RuleFor(CreateUser.body, k), body[k], ps)
    {
      assert k == "username" || k == "password";
    }
    ConvertPartAlike(LoginUser.body, CreateUser.body, body, ps);
  }
}
