/**
 * `UserSerializer`: a user is read with its department nested and without its
 * password; written with `department_id` resolved against the department
 * table, and updated with the password hashed rather than assigned.
 */
module UserSerializer {
  import opened Wrappers
  import opened Json
  import opened Models
  import opened Fields
  import DepartmentSerializer

  /** The read-only nested `department` field: the department read view, or `None` without a department. */
  function DepartmentView(u: OAUser, db: Db): (v: Value)
    requires Consistent(db) && DepartmentResolves(db.departments, u)
    ensures u.department.None? ==> v == Null
    ensures u.department.Some? ==> v.Obj? && "id" in v.fields && v.fields["id"] == Int(u.department.value)
  {
    if u.department.None? then Null
    else Obj(DepartmentSerializer.Read(FindDepartment(db.departments, u.department.value).value, db.users))
  }

  /** The nested `department` is the full department read view of the one row the user's department id names. */
  lemma DepartmentViewIsRead(u: OAUser, db: Db, d: OADepartment)
    requires Consistent(db) && u.department.Some? && d in db.departments && d.id == u.department.value
    ensures DepartmentResolves(db.departments, u) && ManagerResolves(db.users, d)
    ensures DepartmentView(u, db) == Obj(DepartmentSerializer.Read(d, db.users))
  {
  }

  /**
   * The read representation of `u`, given the value of its nested `department`
   * field: the readable declared fields, so never `password` or `department_id`;
   * every plain field holds the user's attribute.
   */
  function Representation(u: OAUser, department: Value): (r: map<string, Value>)
    ensures r.Keys == ReadFields(UserFields)
    ensures "password" !in r && "department_id" !in r
    ensures "department" in r && r["department"] == department
    ensures forall k :: k in r && k != "department" ==> r[k] == UserField(u, k)
  {
    assert UserFields["password"] == WriteOnly && UserFields["department_id"] == WriteOnly;
    assert UserFields["department"] == ReadOnly;
    map f | f in ReadFields(UserFields) :: if f == "department" then department else UserField(u, f)
  }

  /** `UserSerializer(u).data` against the tables of `db`. */
  function Read(u: OAUser, db: Db): (r: map<string, Value>)
    requires Consistent(db) && DepartmentResolves(db.departments, u)
    ensures r.Keys == ReadFields(UserFields)
    ensures "password" !in r && "department_id" !in r
    ensures "department" in r && r["department"] == DepartmentView(u, db)
    ensures forall k :: k in r && k != "department" ==> r[k] == UserField(u, k)
  {
    Representation(u, DepartmentView(u, db))
  }

  /** The errors of a primary-key related field. */
  datatype FieldError = DoesNotExist(pk: int) | IncorrectType

  /**
   * `department_id` on write: a related field reads the empty string as `None`,
   * and `None` is allowed; an integer must be the id of an existing department;
   * anything else has the wrong type.
   */
  function ResolveDepartment(v: Value, departments: seq<OADepartment>): (r: Result<Value, FieldError>)
    ensures v.Null? || v == Str("") ==> r == Ok(Null)
    ensures v.Int? ==> (r.Ok? <==> exists d :: d in departments && d.id == v.n)
    ensures v.Int? && r.Err? ==> r.error == DoesNotExist(v.n)
    ensures !v.Null? && !v.Int? && v != Str("") ==> r == Err(IncorrectType)
    ensures r.Ok? ==> r.value == (if v == Str("") then Null else v)
  {
    match v
    case Null => Ok(Null)
    case Int(pk) => if FindDepartment(departments, pk).Some? then Ok(v) else Err(DoesNotExist(pk))
    case Str(s) => if s == "" then Ok(Null) else Err(IncorrectType)
    case _ => Err(IncorrectType)
  }

  /**
   * The validated data of a user write: the writable fields of the input, with
   * `department_id` (optional) resolved and stored under its source attribute
   * `department`; the read-only `department` of the input is ignored.
   */
  function ValidatedData(data: map<string, Value>, departments: seq<OADepartment>): (r: Result<map<string, Value>, FieldError>)
    ensures "department_id" !in data ==> r.Ok? && "department" !in r.value
    ensures "department_id" in data ==> (r.Ok? <==> ResolveDepartment(data["department_id"], departments).Ok?)
    ensures "department_id" in data && r.Ok? ==> "department" in r.value && Ok(r.value["department"]) == ResolveDepartment(data["department_id"], departments)
    ensures r.Err? ==> "department_id" in data && Err(r.error) == ResolveDepartment(data["department_id"], departments)
    ensures r.Ok? ==> "department_id" !in r.value
    ensures r.Ok? ==> forall k :: k in r.value && k != "department" ==> k in data && k in WriteFields(UserFields) && r.value[k] == data[k]
    ensures r.Ok? ==> forall k :: k in data && k in WriteFields(UserFields) && k != "department_id" ==> k in r.value
  {
    UserWriteShape();
    var plain := map k | k in data && k in WriteFields(UserFields) && k != "department_id" :: data[k];
    if "department_id" !in data then Ok(plain)
    else
      match ResolveDepartment(data["department_id"], departments)
      case Ok(v) => Ok(plain["department" := v])
      case Err(e) => Err(e)
  }

  /**
   * The user `update` leaves: a truthy `password` is hashed and set, an absent or
   * falsy one leaves the stored password alone; every other validated field is
   * then assigned, and no field that was not supplied changes.
   */
  function Updated(u: OAUser, vd: map<string, Value>, hasher: string -> string): (r: OAUser)
    requires WellTyped(vd)
    ensures "password" in vd && Truthy(vd["password"]) ==> r.password == hasher(vd["password"].s)
    ensures !("password" in vd && Truthy(vd["password"])) ==> r.password == u.password
    ensures forall k :: k in UserAttributes && k != "password" ==> UserField(r, k) == (if k in vd then vd[k] else UserField(u, k))
  {
    var hashed := if "password" in vd && Truthy(vd["password"]) then u.(password := hasher(vd["password"].s)) else u;
    var rest := vd - {"password"};
    SetAttributesFields(hashed, rest);
    SetAttributes(hashed, rest)
  }

  /** `update(instance, validated_data)`: pops `password`, hashes and sets it when truthy, then assigns the rest. */
  method Update(instance: UserInstance, validatedData: Dict, hasher: string -> string) returns (result: UserInstance)
    requires WellTyped(validatedData.items)
    modifies instance, validatedData
    ensures result == instance
    ensures validatedData.items == old(validatedData.items) - {"password"}
    ensures instance.record == Updated(old(instance.record), old(validatedData.items), hasher)
  {
    var password := validatedData.Pop("password", Null);
    if Truthy(password) {
      instance.SetPassword(password.s, hasher);
    }
    instance.Assign(validatedData.items);
    result := instance;
  }

  /**
   * `create(validated_data)`: the guarded `pop` of `department` runs only when
   * that key is absent, so it removes nothing, and `create_user` receives the
   * validated data unchanged.
   */
  method Create(validatedData: map<string, Value>, createUser: map<string, Value> -> OAUser) returns (user: OAUser)
    ensures user == createUser(validatedData)
  {
    var data := new Dict(validatedData);
    if "department" !in data.items {
      var dropped := data.Pop("department", Null);
    }
    assert data.items == validatedData;
    user := createUser(data.items);
  }

  /**
   * Writing a user with the id of an existing department and reading it back
   * gives a nested department whose `id` is the one written.
   */
  lemma DepartmentIdRoundTrip(u: OAUser, data: map<string, Value>, db: Db, pk: int, hasher: string -> string)
    requires Consistent(db) && WellTyped(data)
    requires "department_id" in data && data["department_id"] == Int(pk)
    requires exists d :: d in db.departments && d.id == pk
    ensures ValidatedData(data, db.departments).Ok?
    ensures WellTyped(ValidatedData(data, db.departments).value)
    ensures
      var written := Updated(u, ValidatedData(data, db.departments).value, hasher);
      && DepartmentResolves(db.departments, written)
      && Read(written, db)["department"].Obj?
      && Read(written, db)["department"].fields["id"] == Int(pk)
  {
  }

  /**
   * Writing an empty `department_id` validates, stores `None` under
   * `department`, and the user read back has no nested department.
   */
  lemma EmptyDepartmentIdClears(u: OAUser, data: map<string, Value>, db: Db, hasher: string -> string)
    requires Consistent(db) && WellTyped(data)
    requires "department_id" in data && data["department_id"] == Str("")
    ensures ValidatedData(data, db.departments).Ok?
    ensures WellTyped(ValidatedData(data, db.departments).value)
    ensures
      var written := Updated(u, ValidatedData(data, db.departments).value, hasher);
      && written.department.None?
      && Read(written, db)["department"] == Null
  {
  }
}
