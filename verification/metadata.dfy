/**
 The department mapper of the preprocessing stage (`infer_department` and
 `get_allowed_roles`) over an already loaded role configuration. The configuration's
 `roles` mapping is a sequence of entries in its insertion order, which is the order
 the mapper tries them in.
 */
module Metadata {
  import opened Strings
  import opened Optional

  const UnknownDepartment := "Unknown"

  /** One entry of the `roles` mapping: a department, the folder names that identify it
      and, optionally, the roles allowed to read it. */
  datatype DepartmentConfig = DepartmentConfig(name: string, folders: seq<string>, allowedRoles: Option<seq<string>>)

  type RoleConfig = seq<DepartmentConfig>

  /** The keys of a mapping are distinct. */
  predicate DistinctNames(config: RoleConfig) {
    forall i, j :: 0 <= i < j < |config| ==> config[i].name != config[j].name
  }

  /** Backslashes become forward slashes, then everything is lower-cased. */
  function NormalizePath(path: string): (r: string)
    ensures |r| == |path|
    ensures forall i :: 0 <= i < |r| ==> r[i] == LowerChar(if path[i] == '\\' then '/' else path[i])
  {
    Lower(seq(|path|, i requires 0 <= i < |path| => if path[i] == '\\' then '/' else path[i]))
  }

  /** Some folder of the department, lower-cased, occurs in the normalized path. */
  predicate Matches(dept: DepartmentConfig, normalized: string) {
    exists k :: 0 <= k < |dept.folders| && Contains(normalized, Lower(dept.folders[k]))
  }

  /** Department `i` is the first, in configuration order, that matches. */
  predicate FirstMatchAt(config: RoleConfig, normalized: string, i: int) {
    0 <= i < |config| && Matches(config[i], normalized)
    && forall j :: 0 <= j < i ==> !Matches(config[j], normalized)
  }

  /** The inner loop over one department's folders. */
  function AnyFolderMatches(folders: seq<string>, normalized: string): (b: bool)
    ensures b <==> exists k :: 0 <= k < |folders| && Contains(normalized, Lower(folders[k]))
  {
    if |folders| == 0 then false
    else if Contains(normalized, Lower(folders[0])) then true
    else
      assert forall k :: 1 <= k < |folders| ==> folders[k] == folders[1..][k - 1];
      AnyFolderMatches(folders[1..], normalized)
  }

  /** The outer loop over departments in configuration order. */
  function FirstMatch(config: RoleConfig, normalized: string): (r: string)
    ensures (forall i :: 0 <= i < |config| ==> !Matches(config[i], normalized)) ==> r == UnknownDepartment
    ensures forall i :: FirstMatchAt(config, normalized, i) ==> r == config[i].name
  {
    if |config| == 0 then UnknownDepartment
    else if AnyFolderMatches(config[0].folders, normalized) then config[0].name
    else
      var r := FirstMatch(config[1..], normalized);
      assert forall i :: 1 <= i < |config| ==> config[i] == config[1..][i - 1];
      r
  }

  /** `infer_department`: the first department, in configuration order, one of whose
      folders occurs in the normalized path; `"Unknown"` when there is none. */
  function InferDepartment(path: string, config: RoleConfig): (r: string)
    ensures (forall i :: 0 <= i < |config| ==> !Matches(config[i], NormalizePath(path))) ==> r == UnknownDepartment
    ensures forall i :: FirstMatchAt(config, NormalizePath(path), i) ==> r == config[i].name
  {
    FirstMatch(config, NormalizePath(path))
  }

  /** When no department is itself called "Unknown", the answer is "Unknown" exactly when
      no configured folder occurs in the path. */
  lemma UnknownIffNoFolderMatches(path: string, config: RoleConfig)
    requires forall i :: 0 <= i < |config| ==> config[i].name != UnknownDepartment
    ensures InferDepartment(path, config) == UnknownDepartment
        <==> forall i :: 0 <= i < |config| ==> !Matches(config[i], NormalizePath(path))
  {
    var np := NormalizePath(path);
    if exists i :: 0 <= i < |config| && Matches(config[i], np) {
      var i := FirstMatchingIndex(config, np);
      assert InferDepartment(path, config) == config[i].name;
    }
  }

  /** The least index of a matching department, when there is one. */
  lemma FirstMatchingIndex(config: RoleConfig, normalized: string) returns (i: nat)
    requires exists i :: 0 <= i < |config| && Matches(config[i], normalized)
    ensures FirstMatchAt(config, normalized, i)
  {
    var n :| 0 <= n < |config| && Matches(config[n], normalized);
    i := 0;
    while !Matches(config[i], normalized)
      invariant i <= n
      invariant forall j :: 0 <= j < i ==> !Matches(config[j], normalized)
      decreases n - i
    {
      i := i + 1;
    }
  }

  /** The result depends on the path only through its normalized form, so it ignores
      letter case and the choice of path separator. */
  lemma InferDepartmentIgnoresCaseAndSeparator(p: string, q: string, config: RoleConfig)
    requires |p| == |q|
    requires forall i :: 0 <= i < |p| ==>
      LowerChar(if p[i] == '\\' then '/' else p[i]) == LowerChar(if q[i] == '\\' then '/' else q[i])
    ensures InferDepartment(p, config) == InferDepartment(q, config)
  {
    assert NormalizePath(p) == NormalizePath(q);
  }

  lemma UpperAndLowerPathsAgree(p: string, config: RoleConfig)
    ensures InferDepartment(Lower(p), config) == InferDepartment(p, config)
  {
    InferDepartmentIgnoresCaseAndSeparator(Lower(p), p, config);
  }

  /** An empty folder name occurs in every path, so its department matches everything. */
  lemma EmptyFolderMatchesEveryPath(dept: DepartmentConfig, path: string)
    requires "" in dept.folders
    ensures Matches(dept, NormalizePath(path))
  {
    var k :| 0 <= k < |dept.folders| && dept.folders[k] == "";
    EmptyIsContained(NormalizePath(path));
    assert Lower(dept.folders[k]) == "";
  }

  /** A department without folders never matches. */
  lemma NoFoldersNeverMatches(dept: DepartmentConfig, path: string)
    requires |dept.folders| == 0
    ensures !Matches(dept, NormalizePath(path))
  {
  }

  /** `get_allowed_roles`: the configured roles of a department; the empty list when the
      department is not configured or has no `allowed_roles` key. */
  function GetAllowedRoles(department: string, config: RoleConfig): (r: seq<string>)
    ensures (forall i :: 0 <= i < |config| ==> config[i].name != department) ==> r == []
    ensures DistinctNames(config) ==>
      forall i :: 0 <= i < |config| && config[i].name == department ==> r == config[i].allowedRoles.GetOr([])
  {
    if |config| == 0 then []
    else if config[0].name == department then config[0].allowedRoles.GetOr([])
    else
      var r := GetAllowedRoles(department, config[1..]);
      assert forall i :: 1 <= i < |config| ==> config[i] == config[1..][i - 1];
      r
  }

  /** The fall-back department is not configured in a configuration that does not name
      it, so it is allowed no roles at all. */
  lemma UnknownHasNoRoles(config: RoleConfig)
    requires forall i :: 0 <= i < |config| ==> config[i].name != UnknownDepartment
    ensures GetAllowedRoles(UnknownDepartment, config) == []
  {
  }
}
