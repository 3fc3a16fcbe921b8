/**
 * The stored records the serializers map: users and departments, the tables
 * that hold them, and the lookups the ORM performs on those tables.
 */
module Models {
  import opened Wrappers
  import opened Json

  /** A user record. `password` is the stored string (a hash when set properly); `department` is a department id. */
  datatype OAUser = OAUser(
    uid: string,
    realname: string,
    email: string,
    password: string,
    telephone: string,
    department: Option<int>,
    isStaff: bool,
    status: int,
    isActive: bool,
    dateJoined: string)

  /** A department record. `leader` is free text, `manager` the uid of a user. */
  datatype OADepartment = OADepartment(id: int, name: string, intro: string, leader: string, manager: Option<string>)

  /** The two tables of the persistence layer. */
  datatype Db = Db(users: seq<OAUser>, departments: seq<OADepartment>)

  /** `OAUser.objects.get(uid=uid)`, or `None` when no row has that uid. */
  function FindUser(users: seq<OAUser>, uid: string): (r: Option<OAUser>)
    ensures r.Some? <==> exists u :: u in users && u.uid == uid
    ensures r.Some? ==> r.value in users && r.value.uid == uid
  {
    if |users| == 0 then None
    else if users[0].uid == uid then Some(users[0])
    else FindUser(users[1..], uid)
  }

  /** `OADepartment.objects.get(pk=id)`, or `None` when no row has that id. */
  function FindDepartment(departments: seq<OADepartment>, id: int): (r: Option<OADepartment>)
    ensures r.Some? <==> exists d :: d in departments && d.id == id
    ensures r.Some? ==> r.value in departments && r.value.id == id
  {
    if |departments| == 0 then None
    else if departments[0].id == id then Some(departments[0])
    else FindDepartment(departments[1..], id)
  }

  /** `OADepartment.objects.filter(leader=name)`: the rows whose leader text equals `name`, in table order. */
  function FilterByLeader(departments: seq<OADepartment>, name: string): (r: seq<OADepartment>)
    ensures forall d :: d in r <==> d in departments && d.leader == name
    ensures |r| <= |departments|
  {
    if |departments| == 0 then []
    else if departments[0].leader == name then [departments[0]] + FilterByLeader(departments[1..], name)
    else FilterByLeader(departments[1..], name)
  }

  /** The manager reference of `d` names an existing user (the foreign-key constraint). */
  predicate ManagerResolves(users: seq<OAUser>, d: OADepartment)
  {
    d.manager.None? || FindUser(users, d.manager.value).Some?
  }

  /** The department reference of `u` names an existing department (the foreign-key constraint). */
  predicate DepartmentResolves(departments: seq<OADepartment>, u: OAUser)
  {
    u.department.None? || FindDepartment(departments, u.department.value).Some?
  }

  /** `uid` is the primary key of the user table: no two rows share it. */
  predicate UniqueUids(users: seq<OAUser>)
  {
    forall u, v :: u in users && v in users && u.uid == v.uid ==> u == v
  }

  /** `id` is the primary key of the department table: no two rows share it. */
  predicate UniqueIds(departments: seq<OADepartment>)
  {
    forall d, e :: d in departments && e in departments && d.id == e.id ==> d == e
  }

  /** Key uniqueness and referential integrity of the two tables, as the database keeps them. */
  predicate Consistent(db: Db)
  {
    && UniqueUids(db.users)
    && UniqueIds(db.departments)
    && (forall d :: d in db.departments ==> ManagerResolves(db.users, d))
    && (forall u :: u in db.users ==> DepartmentResolves(db.departments, u))
  }

  /** The model attributes of a user that a serializer may read or set, by field name. */
  const UserAttributes: set<string> :=
    {"uid", "realname", "email", "password", "telephone", "department", "is_staff", "status", "is_active", "date_joined"}

  /** Attribute `name` of `u` as its model field represents it; a foreign key as its raw id. */
  function UserField(u: OAUser, name: string): Value
  {
    if name == "uid" then Str(u.uid)
    else if name == "realname" then Str(u.realname)
    else if name == "email" then Str(u.email)
    else if name == "password" then Str(u.password)
    else if name == "telephone" then Str(u.telephone)
    else if name == "department" then (if u.department.Some? then Int(u.department.value) else Null)
    else if name == "is_staff" then Bool(u.isStaff)
    else if name == "status" then Int(u.status)
    else if name == "is_active" then Bool(u.isActive)
    else if name == "date_joined" then Str(u.dateJoined)
    else Null
  }

  /** Attribute `name` of `d` as its model field represents it; the manager as its raw uid. */
  function DepartmentField(d: OADepartment, name: string): Value
  {
    if name == "id" then Int(d.id)
    else if name == "name" then Str(d.name)
    else if name == "intro" then Str(d.intro)
    else if name == "leader" then Str(d.leader)
    else if name == "manager" then (if d.manager.Some? then Str(d.manager.value) else Null)
    else Null
  }

  /** A validated value for attribute `name` has the type of that model field. */
  predicate Conforms(name: string, v: Value)
  {
    if name in {"uid", "realname", "email", "password", "telephone", "date_joined"} then v.Str?
    else if name in {"is_staff", "is_active"} then v.Bool?
    else if name == "status" then v.Int?
    else if name == "department" then v.Null? || v.Int?
    else true
  }

  /** Validated data: every value has the type of the attribute it is for. */
  predicate WellTyped(vd: map<string, Value>)
  {
    forall k :: k in vd ==> Conforms(k, vd[k])
  }

  function StrAttr(vd: map<string, Value>, name: string, current: string): string
  {
    if name in vd && vd[name].Str? then vd[name].s else current
  }

  function BoolAttr(vd: map<string, Value>, name: string, current: bool): bool
  {
    if name in vd && vd[name].Bool? then vd[name].b else current
  }

  /**
   * `setattr(instance, attr, value)` for every item of the validated data, which
   * is what the generic model update does: a present attribute takes its new
   * value, an absent one keeps the old value.
   */
  function SetAttributes(u: OAUser, vd: map<string, Value>): OAUser
  {
    OAUser(
      StrAttr(vd, "uid", u.uid),
      StrAttr(vd, "realname", u.realname),
      StrAttr(vd, "email", u.email),
      StrAttr(vd, "password", u.password),
      StrAttr(vd, "telephone", u.telephone),
      if "department" in vd then (if vd["department"].Int? then Some(vd["department"].n) else None) else u.department,
      BoolAttr(vd, "is_staff", u.isStaff),
      if "status" in vd && vd["status"].Int? then vd["status"].n else u.status,
      BoolAttr(vd, "is_active", u.isActive),
      StrAttr(vd, "date_joined", u.dateJoined))
  }

  /** After the generic update, a validated attribute holds its new value and every other attribute its old one. */
  lemma SetAttributesField(u: OAUser, vd: map<string, Value>, name: string)
    requires WellTyped(vd) && name in UserAttributes
    ensures UserField(SetAttributes(u, vd), name) == (if name in vd then vd[name] else UserField(u, name))
  {
    if name in vd {
      assert Conforms(name, vd[name]);
    }
  }

  /** `SetAttributesField` for every attribute at once. */
  lemma SetAttributesFields(u: OAUser, vd: map<string, Value>)
    requires WellTyped(vd)
    ensures forall k :: k in UserAttributes ==> UserField(SetAttributes(u, vd), k) == (if k in vd then vd[k] else UserField(u, k))
  {
    forall k | k in UserAttributes
      ensures UserField(SetAttributes(u, vd), k) == (if k in vd then vd[k] else UserField(u, k))
    {
      SetAttributesField(u, vd, k);
    }
  }

  /** A user model instance, whose attributes the serializer changes in place. */
  class UserInstance {
    var record: OAUser

    constructor (u: OAUser)
      ensures record == u
    {
      record := u;
    }

    /** `set_password(raw)`: stores the hash of `raw`, never `raw` itself; nothing else changes. */
    method SetPassword(raw: string, hasher: string -> string)
      modifies this
      ensures record == old(record).(password := hasher(raw))
    {
      record := record.(password := hasher(raw));
    }

    /** The generic model update: every validated item is set on the instance, which is then saved. */
    method Assign(vd: map<string, Value>)
      modifies this
      ensures record == SetAttributes(old(record), vd)
    {
      record := SetAttributes(record, vd);
    }
  }
}
