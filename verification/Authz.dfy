/** Authorization roles. */
module Authz {
  import opened Prelude

  type Roles = seq<string>

  const VALID_ROLES: set<string> := {"USER", "ADMIN", "attendant", "manager", "mechanic"}

  /** What every stored user's roles satisfy: at least one role, and only roles the service knows. */
  predicate ValidRoles(roles: Roles) {
    roles != [] && forall i :: 0 <= i < |roles| ==> roles[i] in VALID_ROLES
  }

  /** The checking loop of NewRoles, from position `i` on. */
  function CheckRoles(roles: seq<string>, i: nat): (r: Result<Roles>)
    requires i <= |roles|
    ensures r == if forall j :: i <= j < |roles| ==> roles[j] in VALID_ROLES then Ok(roles) else Err(InvalidRole)
    decreases |roles| - i
  {
    if i == |roles| then Ok(roles)
    else if roles[i] !in VALID_ROLES then Err(InvalidRole)
    else CheckRoles(roles, i + 1)
  }

  function NewRoles(roles: seq<string>): (r: Result<Roles>)
    ensures r.Ok? <==> ValidRoles(roles)
    ensures r.Ok? ==> r.value == roles
    ensures r.Err? ==> r.error == if roles == [] then RolesRequired else InvalidRole
  {
    if roles == [] then Err(RolesRequired) else CheckRoles(roles, 0)
  }

  /** The roles that the service knows. */
  lemma KnownRoles(role: string)
    ensures NewRoles([role]).Ok?
       <==> role == "USER" || role == "ADMIN" || role == "attendant" || role == "manager" || role == "mechanic"
  {
    assert [role][0] == role;
  }

  /** The read path: no check is made. */
  function NewRolesUnchecked(roles: seq<string>): Roles {
    roles
  }
}
