/**
 Route-level access control (`rbac_required`): the role-to-departments table and the
 check run for each request. The authenticated user is given as their role string;
 token decoding is left out.
 */
module Rbac {
  import opened Strings
  import opened Optional

  /** The departments each recognised (lower-case) role may open. */
  const RbacRules: map<string, seq<string>> := map[
    "finance" := ["finance", "general"],
    "hr" := ["hr", "general"],
    "engineering" := ["engineering", "general"],
    "marketing" := ["marketing", "general"],
    "employees" := ["general"],
    "c-level" := ["finance", "hr", "engineering", "marketing", "general"]
  ]

  const Forbidden: int := 403

  /** The request goes through, or it is refused with an HTTP status and detail. */
  datatype Decision = Allow | Deny(status: int, detail: string)

  /** The checker built by `rbac_required(department)`, applied to a user's role. */
  function RbacCheck(department: Option<string>, userRole: string): Decision
  {
    var role := Lower(userRole);
    if role !in RbacRules then Deny(Forbidden, "Role not recognized")
    else if department.None? then Allow
    else if Lower(department.value) !in RbacRules[role] then Deny(Forbidden, "Access denied for role: " + role)
    else Allow
  }

  /** The four departmental roles, each of which owns the department of its name. */
  predicate IsDepartmentRole(r: string) {
    r == "finance" || r == "hr" || r == "engineering" || r == "marketing"
  }

  predicate IsKnownRole(r: string) {
    IsDepartmentRole(r) || r == "employees" || r == "c-level"
  }

  /** The access policy in words: everybody opens `general`, a departmental role also
      its own department, and `c-level` every department. */
  predicate Reaches(role: string, department: string) {
    && IsKnownRole(role)
    && (|| department == "general"
        || (IsDepartmentRole(role) && department == role)
        || (role == "c-level" && IsDepartmentRole(department)))
  }

  /** The table recognises exactly the six roles and encodes exactly the policy. */
  lemma TableIsPolicy(role: string, department: string)
    ensures role in RbacRules <==> IsKnownRole(role)
    ensures role in RbacRules ==> (department in RbacRules[role] <==> Reaches(role, department))
  {
    assert RbacRules.Keys == {"finance", "hr", "engineering", "marketing", "employees", "c-level"};
  }

  /** The check lets a request through exactly when the role is recognised and either no
      department is asked for or the policy reaches it, both compared in lower case. */
  lemma CheckFollowsPolicy(department: Option<string>, userRole: string)
    ensures RbacCheck(department, userRole) == Allow
        <==> IsKnownRole(Lower(userRole))
             && (department.None? || Reaches(Lower(userRole), Lower(department.value)))
  {
    TableIsPolicy(Lower(userRole), if department.Some? then Lower(department.value) else "");
  }

  /** Every refusal is a 403; an unrecognised role is reported as such, a recognised
      one is named, in lower case, in the detail. */
  lemma DenialDetails(department: Option<string>, userRole: string)
    ensures RbacCheck(department, userRole).Deny? ==> RbacCheck(department, userRole).status == Forbidden
    ensures !IsKnownRole(Lower(userRole)) ==> RbacCheck(department, userRole) == Deny(Forbidden, "Role not recognized")
    ensures IsKnownRole(Lower(userRole)) && RbacCheck(department, userRole).Deny? ==>
      RbacCheck(department, userRole).detail == "Access denied for role: " + Lower(userRole)
  {
    TableIsPolicy(Lower(userRole), "");
  }

  /** Letter case of the role and of the department does not change the decision. */
  lemma CheckIgnoresCase(department: string, userRole: string)
    ensures RbacCheck(Some(department), userRole) == RbacCheck(Some(Lower(department)), Lower(userRole))
    ensures RbacCheck(None, userRole) == RbacCheck(None, Lower(userRole))
  {
    LowerIdempotent(userRole);
    LowerIdempotent(department);
  }

  /** `general` is open to every recognised role; `employees` opens nothing else. */
  lemma GeneralOpenToAll(userRole: string, department: string)
    requires IsKnownRole(Lower(userRole))
    ensures RbacCheck(Some("general"), userRole) == Allow
    ensures Lower(userRole) == "employees" ==>
      (RbacCheck(Some(department), userRole) == Allow <==> Lower(department) == "general")
  {
    assert Lower("general") == "general";
    CheckFollowsPolicy(Some("general"), userRole);
    CheckFollowsPolicy(Some(department), userRole);
  }

  /** `c-level` opens every department of the table, and only those. */
  lemma SuperRoleOpensAllDepartments(userRole: string, department: string)
    requires Lower(userRole) == "c-level"
    ensures RbacCheck(Some(department), userRole) == Allow
        <==> Lower(department) in {"finance", "hr", "engineering", "marketing", "general"}
  {
    CheckFollowsPolicy(Some(department), userRole);
  }
}
