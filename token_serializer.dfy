/**
 * `MyTokenObtainPairSerializer`: the credential check of the token library,
 * followed by an authorization check, and the token payload extended with the
 * user's real name and email.
 */
module TokenSerializer {
  import opened Wrappers
  import opened Json
  import opened Models

  /** The machine-readable code of the authorization error. */
  const AuthorizationCode := "authorization"

  /** Why a login fails: the base credential check, or a validation error carrying a code. */
  datatype LoginError = AuthenticationFailed | ValidationError(code: string)

  /** What the base `validate` yields on valid credentials: the user it authenticated and the token data. */
  datatype Authenticated = Authenticated(user: OAUser, data: map<string, Value>)

  /** `OADepartment.objects.filter(leader=user.realname).exists()`: a text match, not a relation. */
  predicate IsDepartmentLeader(user: OAUser, departments: seq<OADepartment>)
  {
    |FilterByLeader(departments, user.realname)| != 0
  }

  /** `is_manager_staff or is_department_leader` */
  predicate MayLogIn(user: OAUser, departments: seq<OADepartment>)
  {
    user.isStaff || IsDepartmentLeader(user, departments)
  }

  /** A user may log in exactly when staff, or when some department's leader text equals the user's real name. */
  lemma MayLogInIff(user: OAUser, departments: seq<OADepartment>)
    ensures MayLogIn(user, departments) <==>
      user.isStaff || exists d :: d in departments && d.leader == user.realname
  {
    var leading := FilterByLeader(departments, user.realname);
    if |leading| != 0 {
      assert leading[0] in leading;
    }
  }

  /**
   * The leader match is plain text: a non-staff user with an empty real name
   * may log in as soon as some department's leader text is empty.
   */
  lemma EmptyNameLeader(user: OAUser, departments: seq<OADepartment>, d: OADepartment)
    requires !user.isStaff && user.realname == ""
    requires d in departments && d.leader == ""
    ensures MayLogIn(user, departments)
  {
    MayLogInIff(user, departments);
  }

  /**
   * The outcome of `validate(attrs)` when the base check is `base`: its failure
   * ends the call before any authorization check, so the department table plays
   * no part in it; an unauthorized user gets the
   * `authorization` error; an authorized one the base data with `realname` and
   * `email` added and every other key as it was.
   */
  function Outcome(attrs: map<string, Value>, departments: seq<OADepartment>,
                   base: map<string, Value> -> Option<Authenticated>): (r: Result<map<string, Value>, LoginError>)
    ensures base(attrs).None? ==> r == Err(AuthenticationFailed)
    ensures base(attrs).Some? && !MayLogIn(base(attrs).value.user, departments) ==>
      r == Err(ValidationError(AuthorizationCode))
    ensures base(attrs).Some? && MayLogIn(base(attrs).value.user, departments) ==>
      var a := base(attrs).value;
      && r.Ok?
      && r.value.Keys == a.data.Keys + {"realname", "email"}
      && r.value["realname"] == Str(a.user.realname)
      && r.value["email"] == Str(a.user.email)
      && (forall k :: k in a.data && k != "realname" && k != "email" ==> r.value[k] == a.data[k])
  {
    match base(attrs)
    case None => Err(AuthenticationFailed)
    case Some(a) =>
      if !MayLogIn(a.user, departments) then Err(ValidationError(AuthorizationCode))
      else Ok(a.data["realname" := Str(a.user.realname)]["email" := Str(a.user.email)])
  }

  /** `validate(attrs)`: the base check, the two authorization conditions, then the payload changed in place. */
  method Validate(attrs: map<string, Value>, departments: seq<OADepartment>,
                  base: map<string, Value> -> Option<Authenticated>) returns (r: Result<map<string, Value>, LoginError>)
    ensures r == Outcome(attrs, departments, base)
  {
    var authenticated := base(attrs);
    if authenticated.None? {
      return Err(AuthenticationFailed);
    }
    var data := new Dict(authenticated.value.data);
    var user := authenticated.value.user;
    var isManagerStaff := user.isStaff;
    var isDepartmentLeader := |FilterByLeader(departments, user.realname)| != 0;
    if !(isManagerStaff || isDepartmentLeader) {
      return Err(ValidationError(AuthorizationCode));
    }
    data.Put("realname", Str(user.realname));
    data.Put("email", Str(user.email));
    return Ok(data.items);
  }
}
