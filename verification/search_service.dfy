/**
 The RBAC-filtered retriever (`search_with_rbac`). The query embedding and the
 nearest-neighbour lookup are left out: the index's answer is given as its ranked
 candidate list, nearest first, of which the retriever asks for the first ten.
 */
module SearchService {
  import opened Strings
  import opened Embedder

  /** Distances reported by the index are non-negative dissimilarities. */
  type Distance = r: real | r >= 0.0

  /** One nearest-neighbour candidate: document text, stored metadata and distance. */
  datatype Candidate = Candidate(document: string, metadata: IndexMetadata, distance: Distance)

  /** A retrieval hit as handed to the answer assembler. */
  datatype Hit = Hit(text: string, source: string, department: string, distance: Distance)

  /** The retriever asks the index for this many neighbours whatever `k` is. */
  const OverFetch: nat := 10

  const SuperRole := "c-level"

  const DefaultK: int := 5

  /** The stored role string split on commas, each role stripped and lower-cased. */
  function ParseRoles(stored: string): (roles: seq<string>)
    ensures |roles| == |Split(stored, ',')|
    ensures forall i :: 0 <= i < |roles| ==> roles[i] == Lower(Strip(Split(stored, ',')[i]))
  {
    var fields := Split(stored, ',');
    seq(|fields|, i requires 0 <= i < |fields| => Lower(Strip(fields[i])))
  }

  /** The admission rule for a normalized role. */
  predicate Admits(roleNorm: string, c: Candidate) {
    roleNorm == SuperRole || roleNorm in ParseRoles(c.metadata.accessibleRoles)
  }

  function ToHit(c: Candidate): Hit {
    Hit(c.document, c.metadata.sourceDocument, c.metadata.department, c.distance)
  }

  /** The elements of `xs` that satisfy `keep`, in their original order, each as often
      as it occurs in `xs`. */
  function Filter<T(==,!new)>(keep: T -> bool, xs: seq<T>): (r: seq<T>)
    ensures |r| <= |xs|
    ensures forall x :: x in r <==> x in xs && keep(x)
    ensures IsSubsequence(r, xs)
    ensures forall x :: multiset(r)[x] == if keep(x) then multiset(xs)[x] else 0
  {
    if |xs| == 0 then []
    else
      var rest := Filter(keep, xs[1..]);
      assert multiset(xs) == multiset([xs[0]]) + multiset(xs[1..]) by {
        assert xs == [xs[0]] + xs[1..];
      }
      if keep(xs[0]) then [xs[0]] + rest else rest
  }

  /** The filtering loop: the admitted candidates, in their original order, duplicates
      kept. */
  function Admitted(roleNorm: string, cands: seq<Candidate>): (r: seq<Candidate>)
    ensures |r| <= |cands|
    ensures forall c :: c in r <==> c in cands && Admits(roleNorm, c)
    ensures IsSubsequence(r, cands)
    ensures forall c :: multiset(r)[c] == if Admits(roleNorm, c) then multiset(cands)[c] else 0
  {
    Filter(c => Admits(roleNorm, c), cands)
  }

  /** `xs` is `ys` with some elements left out, the rest in the same order. */
  predicate IsSubsequence<T(==)>(xs: seq<T>, ys: seq<T>)
    decreases |ys|
  {
    if |xs| == 0 then true
    else if |ys| == 0 then false
    else if xs[0] == ys[0] then IsSubsequence(xs[1..], ys[1..])
    else IsSubsequence(xs, ys[1..])
  }

  lemma {:induction false} PrefixOfSubsequence<T>(xs: seq<T>, ys: seq<T>, n: nat)
    requires IsSubsequence(xs, ys) && n <= |xs|
    ensures IsSubsequence(xs[..n], ys)
    decreases |ys|
  {
    if n > 0 && |ys| > 0 {
      if xs[0] == ys[0] {
        PrefixOfSubsequence(xs[1..], ys[1..], n - 1);
        assert xs[..n][1..] == xs[1..][..n - 1];
      } else {
        PrefixOfSubsequence(xs, ys[1..], n);
      }
    }
  }

  /** Nearest first: distances never decrease along the list. */
  predicate SortedByDistance(cs: seq<Candidate>) {
    forall i, j :: 0 <= i < j < |cs| ==> cs[i].distance <= cs[j].distance
  }

  /** Leaving candidates out keeps a nearest-first list nearest first. */
  lemma {:induction false} SubsequenceKeepsOrder(xs: seq<Candidate>, ys: seq<Candidate>)
    requires IsSubsequence(xs, ys) && SortedByDistance(ys)
    ensures SortedByDistance(xs)
    ensures forall x :: x in xs ==> x in ys
    decreases |ys|
  {
    if |xs| > 0 && |ys| > 0 {
      assert SortedByDistance(ys[1..]);
      if xs[0] == ys[0] {
        SubsequenceKeepsOrder(xs[1..], ys[1..]);
        forall i, j | 0 <= i < j < |xs| ensures xs[i].distance <= xs[j].distance {
          if i == 0 {
            assert xs[j] == xs[1..][j - 1];
            assert xs[j] in ys[1..];
          } else {
            assert xs[i] == xs[1..][i - 1] && xs[j] == xs[1..][j - 1];
          }
        }
        assert forall x :: x in xs ==> x == xs[0] || x in xs[1..];
      } else {
        SubsequenceKeepsOrder(xs, ys[1..]);
      }
    }
  }

  /** The first ten candidates of the index's ranking. */
  function TopCandidates(ranked: seq<Candidate>): (top: seq<Candidate>)
    ensures |top| <= OverFetch && |top| <= |ranked|
    ensures top == ranked[..|top|]
    ensures |top| == if |ranked| < OverFetch then |ranked| else OverFetch
  {
    if |ranked| <= OverFetch then ranked else ranked[..OverFetch]
  }

  /** `search_with_rbac`: the admitted hits among the ten nearest candidates, truncated
      with the Python slice `[:k]`. */
  function SearchWithRbac(ranked: seq<Candidate>, userRole: string, k: int): seq<Hit>
  {
    var admitted := Admitted(Lower(userRole), TopCandidates(ranked));
    var kept := Take(admitted, k);
    seq(|kept|, i requires 0 <= i < |kept| => ToHit(kept[i]))
  }

  /** The candidates behind the hits: an order-preserving selection of the ten nearest
      candidates, each admitted for the role, and every admitted candidate is among them
      unless `k` cut the list short. */
  lemma SearchSelectsAdmitted(ranked: seq<Candidate>, userRole: string, k: int)
    ensures var admitted := Admitted(Lower(userRole), TopCandidates(ranked));
      var kept := Take(admitted, k);
      var hits := SearchWithRbac(ranked, userRole, k);
      && |hits| == |kept|
      && (forall i :: 0 <= i < |kept| ==>
            && hits[i].text == kept[i].document
            && hits[i].source == kept[i].metadata.sourceDocument
            && hits[i].department == kept[i].metadata.department
            && hits[i].distance == kept[i].distance)
      && IsSubsequence(kept, TopCandidates(ranked))
      && (forall c :: c in kept ==> Admits(Lower(userRole), c))
      && (k >= |admitted| ==> forall c :: c in TopCandidates(ranked) && Admits(Lower(userRole), c) ==> c in kept)
  {
    var admitted := Admitted(Lower(userRole), TopCandidates(ranked));
    PrefixOfSubsequence(admitted, TopCandidates(ranked), SliceEnd(k, |admitted|));
  }

  /** At most `k` hits and never more than ten; exactly `min(k, admitted)` for `k >= 0`. */
  lemma SearchLength(ranked: seq<Candidate>, userRole: string, k: int)
    ensures var n := |Admitted(Lower(userRole), TopCandidates(ranked))|;
      && |SearchWithRbac(ranked, userRole, k)| <= OverFetch
      && (k >= 0 ==> |SearchWithRbac(ranked, userRole, k)| == if k < n then k else n)
  {
  }

  /** A nearest-first ranking gives nearest-first hits. */
  lemma SearchKeepsDistanceOrder(ranked: seq<Candidate>, userRole: string, k: int)
    requires SortedByDistance(ranked)
    ensures var hits := SearchWithRbac(ranked, userRole, k);
      forall i, j :: 0 <= i < j < |hits| ==> hits[i].distance <= hits[j].distance
  {
    var top := TopCandidates(ranked);
    var admitted := Admitted(Lower(userRole), top);
    var kept := Take(admitted, k);
    assert SortedByDistance(top);
    PrefixOfSubsequence(admitted, top, SliceEnd(k, |admitted|));
    SubsequenceKeepsOrder(kept, top);
  }

  /** The super-role, in any letter case, is admitted to every candidate. */
  lemma SuperRoleSeesAll(ranked: seq<Candidate>, userRole: string, k: int)
    requires Lower(userRole) == SuperRole
    ensures var top := TopCandidates(ranked);
      var kept := Take(top, k);
      SearchWithRbac(ranked, userRole, k) == seq(|kept|, i requires 0 <= i < |kept| => ToHit(kept[i]))
  {
    AllAdmitted(Lower(userRole), TopCandidates(ranked));
  }

  lemma {:induction false} AllAdmitted(roleNorm: string, cands: seq<Candidate>)
    requires roleNorm == SuperRole
    ensures Admitted(roleNorm, cands) == cands
  {
    if |cands| > 0 {
      AllAdmitted(roleNorm, cands[1..]);
    }
  }

  /** Storing roles comma-joined and parsing them back gives the roles lower-cased, as
      long as there is at least one role and none contains a comma or edge whitespace. */
  lemma ParseSerializedRoles(roles: seq<string>)
    requires |roles| > 0
    requires forall i :: 0 <= i < |roles| ==> ',' !in roles[i]
    requires forall i :: 0 <= i < |roles| ==> |roles[i]| > 0 ==> !IsSpace(roles[i][0]) && !IsSpace(roles[i][|roles[i]| - 1])
    ensures ParseRoles(SerializeRoles(roles)) == seq(|roles|, i requires 0 <= i < |roles| => Lower(roles[i]))
  {
    SplitJoin(roles, ',');
    forall i | 0 <= i < |roles| ensures Strip(roles[i]) == roles[i] {
      StripOfTrimmed(roles[i]);
    }
  }

  /** A chunk of a department other than `General` (whose name has no comma and no
      edge whitespace) is admitted to exactly the super-role and the department's own
      role, both compared without regard to ASCII letter case. */
  lemma DepartmentAdmission(department: string, userRole: string, c: Candidate)
    requires Lower(department) != "general"
    requires ',' !in department
    requires |department| > 0 ==> !IsSpace(department[0]) && !IsSpace(department[|department| - 1])
    requires c.metadata.accessibleRoles == SerializeRoles(DeriveRoles(department))
    ensures Admits(Lower(userRole), c) <==> Lower(userRole) == SuperRole || Lower(userRole) == Lower(department)
  {
    var roles := [department, "C-Level"];
    assert ',' !in roles[1];
    ParseSerializedRoles(roles);
    assert Lower("C-Level") == SuperRole;
    assert ParseRoles(c.metadata.accessibleRoles) == [Lower(department), SuperRole];
  }

  /** A `General` chunk is admitted to each of the six organisation roles. */
  lemma GeneralAdmission(department: string, userRole: string, c: Candidate)
    requires Lower(department) == "general"
    requires c.metadata.accessibleRoles == SerializeRoles(DeriveRoles(department))
    ensures Admits(Lower(userRole), c)
        <==> Lower(userRole) in ["employees", "finance", "hr", "marketing", "engineering", "c-level"]
  {
    GeneralRolesTrimmed();
    ParseSerializedRoles(GeneralRoles);
    GeneralRolesLowered();
  }

  lemma GeneralRolesTrimmed()
    ensures forall i :: 0 <= i < |GeneralRoles| ==> ',' !in GeneralRoles[i]
    ensures forall i :: 0 <= i < |GeneralRoles| ==> |GeneralRoles[i]| > 0 ==>
              !IsSpace(GeneralRoles[i][0]) && !IsSpace(GeneralRoles[i][|GeneralRoles[i]| - 1])
  {
    forall i | 0 <= i < |GeneralRoles|
      ensures |GeneralRoles[i]| > 0 ==> !IsSpace(GeneralRoles[i][0]) && !IsSpace(GeneralRoles[i][|GeneralRoles[i]| - 1])
    {
      var r := GeneralRoles[i];
      assert 'A' <= r[0] <= 'Z';
      assert 'a' <= r[|r| - 1] <= 'z' || r[|r| - 1] == 'R';
    }
  }

  lemma GeneralRolesLowered()
    ensures seq(|GeneralRoles|, i requires 0 <= i < |GeneralRoles| => Lower(GeneralRoles[i]))
         == ["employees", "finance", "hr", "marketing", "engineering", "c-level"]
  {
    assert Lower("Employees") == "employees";
    assert Lower("Finance") == "finance";
    assert Lower("HR") == "hr";
    assert Lower("Marketing") == "marketing";
    assert Lower("Engineering") == "engineering";
    assert Lower("C-Level") == "c-level";
  }

  /** An employee does not see a Finance chunk; the super-role does. */
  lemma EmployeeExcludedFromFinance(c: Candidate)
    requires c.metadata.accessibleRoles == SerializeRoles(DeriveRoles("Finance"))
    ensures SearchWithRbac([c], "employees", DefaultK) == []
    ensures SearchWithRbac([c], "C-Level", DefaultK) == [ToHit(c)]
  {
    FinanceFacts();
    DepartmentAdmission("Finance", "employees", c);
    DepartmentAdmission("Finance", "C-Level", c);
    SearchOfOne(c, "employees");
    SearchOfOne(c, "C-Level");
  }

  lemma FinanceFacts()
    ensures Lower("Finance") != "general" && ',' !in "Finance"
    ensures !IsSpace("Finance"[0]) && !IsSpace("Finance"[6])
    ensures Lower("employees") != SuperRole && Lower("employees") != Lower("Finance")
    ensures Lower("C-Level") == SuperRole
  {
    assert Lower("Finance")[0] == 'f';
    assert |Lower("employees")| == 9 && |Lower("Finance")| == 7;
    assert Lower("C-Level") == "c-level";
  }

  /** The retriever on a single candidate: its hit when admitted, nothing otherwise. */
  lemma SearchOfOne(c: Candidate, userRole: string)
    ensures SearchWithRbac([c], userRole, DefaultK) == if Admits(Lower(userRole), c) then [ToHit(c)] else []
  {
    var a := Admitted(Lower(userRole), [c]);
    assert a == if Admits(Lower(userRole), c) then [c] else [];
  }
}
