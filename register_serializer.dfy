/** `UserRegisterSerializer`: registration input handed to the account-creation path. */
module UserRegisterSerializer {
  import opened Wrappers
  import opened Json
  import opened Models
  import opened Fields
  import opened UserSerializer

  /**
   * The validated data of a registration: the input keys among the declared
   * writable fields. `department` is the primary-key related field generated
   * for the nullable foreign key, resolved against the department table like
   * `department_id` of `UserSerializer`; a reference to no row fails. A key
   * that is not declared, such as `uid` or `is_active`, never reaches
   * `create_user`; the plaintext `password` reaches it, to be hashed there.
   */
  function ValidatedData(data: map<string, Value>, departments: seq<OADepartment>): (r: Result<map<string, Value>, FieldError>)
    ensures "department" !in data ==> r.Ok? && "department" !in r.value
    ensures "department" in data ==> (r.Ok? <==> ResolveDepartment(data["department"], departments).Ok?)
    ensures "department" in data && r.Ok? ==>
      "department" in r.value && Ok(r.value["department"]) == ResolveDepartment(data["department"], departments)
    ensures r.Err? ==> "department" in data && Err(r.error) == ResolveDepartment(data["department"], departments)
    ensures r.Ok? ==> forall k :: k in r.value <==> k in data && k in RegisterFields
    ensures r.Ok? ==> forall k :: k in r.value && k != "department" ==> r.value[k] == data[k]
    ensures r.Ok? ==> "uid" !in r.value && "is_active" !in r.value && "date_joined" !in r.value && "telephone" !in r.value
    ensures r.Ok? && "password" in data ==> "password" in r.value && r.value["password"] == data["password"]
  {
    RegisterShape();
    var plain := map k | k in data && k in WriteFields(RegisterFields) && k != "department" :: data[k];
    if "department" !in data then Ok(plain)
    else
      match ResolveDepartment(data["department"], departments)
      case Ok(v) => Ok(plain["department" := v])
      case Err(e) => Err(e)
  }

  /** `create(validated_data)`: `create_user` receives the validated data as it is, and its user is the result. */
  method Create(validatedData: map<string, Value>, createUser: map<string, Value> -> OAUser) returns (user: OAUser)
    ensures user == createUser(validatedData)
  {
    user := createUser(validatedData);
  }
}
