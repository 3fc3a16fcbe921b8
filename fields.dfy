/**
 * The declared fields of the serializers, each with its write-only and
 * read-only flag; the read shape and the write shape follow from them.
 */
module Fields {

  /** The access flags a declared field is given. */
  datatype Access = ReadWrite | WriteOnly | ReadOnly

  /** A serializer's declared fields, each with its access flag. */
  type Declared = map<string, Access>

  /** The names a read representation holds: the declared fields that are not write-only. */
  function ReadFields(fs: Declared): set<string>
  {
    set f | f in fs && fs[f] != WriteOnly
  }

  /** The names a write accepts: the declared fields that are not read-only. */
  function WriteFields(fs: Declared): set<string>
  {
    set f | f in fs && fs[f] != ReadOnly
  }

  /** `SimpleUserSerializer.Meta.fields`. */
  const SimpleUserFields: Declared := map["uid" := ReadWrite, "realname" := ReadWrite]

  /**
   * `DepartmentSerializer`: `id` is the auto primary key, which a model
   * serializer makes read-only; `manager` is write-only by its extra options,
   * `manager_info` the read-only nested manager view.
   */
  const DepartmentFields: Declared := map[
    "id" := ReadOnly, "name" := ReadWrite, "intro" := ReadWrite, "leader" := ReadWrite,
    "manager" := WriteOnly, "manager_info" := ReadOnly]

  /**
   * `UserSerializer`: `password` is write-only by its extra options, the nested
   * `department` read-only and `department_id` write-only.
   */
  const UserFields: Declared := map[
    "uid" := ReadWrite, "realname" := ReadWrite, "email" := ReadWrite, "password" := WriteOnly,
    "telephone" := ReadWrite, "department" := ReadOnly, "department_id" := WriteOnly,
    "is_staff" := ReadWrite, "status" := ReadWrite, "is_active" := ReadWrite, "date_joined" := ReadWrite]

  /** `UserRegisterSerializer`: `password` is write-only. */
  const RegisterFields: Declared := map[
    "realname" := ReadWrite, "email" := ReadWrite, "password" := WriteOnly,
    "department" := ReadWrite, "status" := ReadWrite, "is_staff" := ReadWrite]

  /** The reduced user view reads exactly `uid` and `realname`. */
  lemma SimpleUserShape()
    ensures ReadFields(SimpleUserFields) == {"uid", "realname"}
  {
  }

  /** A department is read with `manager_info` and never the raw `manager`; written with `manager`, never `manager_info` or the key `id`. */
  lemma DepartmentShape()
    ensures ReadFields(DepartmentFields) == {"id", "name", "intro", "leader", "manager_info"}
    ensures WriteFields(DepartmentFields) == {"name", "intro", "leader", "manager"}
  {
  }

  /** A user is read without `password` and `department_id`, with the nested `department` instead. */
  lemma UserReadShape()
    ensures ReadFields(UserFields) == {"uid", "realname", "email", "telephone", "department", "is_staff", "status", "is_active", "date_joined"}
  {
  }

  /** A user is written with `password` and `department_id`, never with the nested `department`. */
  lemma UserWriteShape()
    ensures WriteFields(UserFields) == {"uid", "realname", "email", "password", "telephone", "department_id", "is_staff", "status", "is_active", "date_joined"}
  {
  }

  /** Registration writes all six declared fields; `password` is never read back. */
  lemma RegisterShape()
    ensures ReadFields(RegisterFields) == {"realname", "email", "department", "status", "is_staff"}
    ensures WriteFields(RegisterFields) == RegisterFields.Keys
  {
  }
}
