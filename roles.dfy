/** RoleRepo: the role table, shared by the startup runner and registration. */
module Roles {
  import opened Wrappers
  import opened Entities

  type Roles = map<RoleId, Role>

  /** The name of the role every registered user gets. */
  const UserRoleName := "USER"

  /** The keys of the stored roles with the given name. */
  function RolesNamed(roles: Roles, name: string): set<RoleId>
  {
    set k | k in roles && roles[k].name == name
  }

  /** Some stored role has the given name. */
  predicate HasRoleNamed(roles: Roles, name: string)
  {
    RolesNamed(roles, name) != {}
  }

  /** A set with two distinct members has at least two elements. */
  lemma TwoMembers<T>(s: set<T>, a: T, b: T)
    requires a in s && b in s && a != b
    ensures |s| >= 2
  {
    assert b in s - {a};
    assert |s - {a}| == |s| - 1;
  }

  class RoleRepo {
    var roles: Roles
    var nextRoleId: RoleId

    ghost predicate Valid()
      reads this
    {
      forall k :: k in roles ==> k < nextRoleId && roles[k].id == k
    }

    constructor ()
      ensures Valid() && roles == map[]
    {
      roles, nextRoleId := map[], 0;
    }

    /**
     * The derived single-result query `findByName`: no role with that name
     * gives an empty result, exactly one gives that role, and several make
     * the query fail.
     */
    method FindByName(name: string) returns (r: Result<Option<Role>, Error>)
      ensures r.Success? <==> |RolesNamed(roles, name)| <= 1
      ensures r.Failure? ==> r.error == IncorrectResultSize
      ensures r == Success(None) <==> !HasRoleNamed(roles, name)
      ensures r.Success? && r.value.Some? ==>
                exists k :: RolesNamed(roles, name) == {k} && roles[k] == r.value.value && r.value.value.name == name
    {
      if k :| k in roles && roles[k].name == name {
        if other :| other in roles && roles[other].name == name && other != k {
          TwoMembers(RolesNamed(roles, name), k, other);
          r := Failure(IncorrectResultSize);
        } else {
          assert forall j :: j in RolesNamed(roles, name) <==> j == k;
          assert RolesNamed(roles, name) == {k};
          r := Success(Some(roles[k]));
        }
      } else {
        assert forall j :: j !in RolesNamed(roles, name);
        r := Success(None);
      }
    }

    /** Persists a new role under the next key and returns that key. */
    method Save(name: string) returns (id: RoleId)
      requires Valid()
      modifies this
      ensures Valid()
      ensures id == old(nextRoleId) && id !in old(roles)
      ensures roles == old(roles)[id := Role(id, name)]
    {
      id := nextRoleId;
      roles := roles[id := Role(id, name)];
      nextRoleId := nextRoleId + 1;
    }
  }
}
