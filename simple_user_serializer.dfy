/** `SimpleUserSerializer`: the reduced view of a user, embedded as a department's manager. */
module SimpleUserSerializer {
  import opened Json
  import opened Models
  import opened Fields

  /** The reduced view of `u`: each readable declared field with the value of that attribute. */
  function Representation(u: OAUser): (r: map<string, Value>)
    ensures r.Keys == {"uid", "realname"}
    ensures r["uid"] == Str(u.uid) && r["realname"] == Str(u.realname)
  {
    SimpleUserShape();
    map f | f in ReadFields(SimpleUserFields) :: UserField(u, f)
  }
}
