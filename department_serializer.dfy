/**
 * `DepartmentSerializer`: a department is read with its manager embedded as
 * the reduced user view under `manager`, and written with `manager` as a raw uid.
 */
module DepartmentSerializer {
  import opened Json
  import opened Models
  import opened Fields
  import SimpleUserSerializer

  /** The read-only nested `manager_info` field: the reduced view of the manager, or `None` without one. */
  function ManagerInfo(d: OADepartment, users: seq<OAUser>): (v: Value)
    requires ManagerResolves(users, d)
    ensures d.manager.None? ==> v == Null
    ensures d.manager.Some? ==>
      exists u :: u in users && u.uid == d.manager.value && v == Obj(SimpleUserSerializer.Representation(u))
  {
    if d.manager.None? then Null
    else Obj(SimpleUserSerializer.Representation(FindUser(users, d.manager.value).value))
  }

  /** With `uid` a primary key, `manager_info` is the reduced view of the one user row the manager uid names. */
  lemma ManagerInfoIsManagerRow(d: OADepartment, users: seq<OAUser>, u: OAUser)
    requires UniqueUids(users)
    requires d.manager.Some? && u in users && u.uid == d.manager.value
    ensures ManagerResolves(users, d)
    ensures ManagerInfo(d, users) == Obj(SimpleUserSerializer.Representation(u))
  {
  }

  /** `super().to_representation(instance)`: the readable declared fields; `manager` is write-only, so absent. */
  function StandardRepresentation(d: OADepartment, users: seq<OAUser>): (r: map<string, Value>)
    requires ManagerResolves(users, d)
    ensures r.Keys == {"id", "name", "intro", "leader", "manager_info"}
    ensures r["id"] == Int(d.id) && r["name"] == Str(d.name) && r["intro"] == Str(d.intro) && r["leader"] == Str(d.leader)
    ensures r["manager_info"] == ManagerInfo(d, users)
  {
    DepartmentShape();
    map f | f in ReadFields(DepartmentFields) :: if f == "manager_info" then ManagerInfo(d, users) else DepartmentField(d, f)
  }

  /**
   * The post-processing of `to_representation`: `manager_info` is popped (with
   * default `None`) and its value stored under `manager`; no other key changes.
   */
  function MoveManagerInfo(ret: map<string, Value>): (r: map<string, Value>)
    ensures "manager_info" !in r && "manager" in r
    ensures r["manager"] == (if "manager_info" in ret then ret["manager_info"] else Null)
    ensures forall k :: k != "manager" && k != "manager_info" ==> (k in r <==> k in ret)
    ensures forall k :: k in ret && k != "manager" && k != "manager_info" ==> r[k] == ret[k]
  {
    (ret - {"manager_info"})["manager" := Get(ret, "manager_info", Null)]
  }

  /**
   * The read representation of `d`: its four plain fields and, under `manager`,
   * the reduced view of its manager, or `None`; never the raw manager uid.
   */
  function Read(d: OADepartment, users: seq<OAUser>): (r: map<string, Value>)
    requires ManagerResolves(users, d)
    ensures r.Keys == {"id", "name", "intro", "leader", "manager"}
    ensures r["id"] == Int(d.id) && r["name"] == Str(d.name) && r["intro"] == Str(d.intro) && r["leader"] == Str(d.leader)
    ensures r["manager"] == ManagerInfo(d, users)
    ensures r["manager"] == Null <==> d.manager.None?
    ensures r["manager"].Obj? ==> r["manager"].fields.Keys == {"uid", "realname"}
    ensures !r["manager"].Str?
  {
    MoveManagerInfo(StandardRepresentation(d, users))
  }

  /** `to_representation(instance)`: the standard representation, changed in place by `pop` and an assignment. */
  method ToRepresentation(instance: OADepartment, users: seq<OAUser>) returns (r: map<string, Value>)
    requires ManagerResolves(users, instance)
    ensures r == Read(instance, users)
  {
    var ret := new Dict(StandardRepresentation(instance, users));
    var managerInfo := ret.Pop("manager_info", Null);
    ret.Put("manager", managerInfo);
    r := ret.items;
  }
}
