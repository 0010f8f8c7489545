/**
 The corpus validator (`main` of the validation script): an ordered list of checks over
 the chunk records, stopping at the first one that fails. Records are given as parsed
 JSON objects whose fields may be absent; reading the file is left out.
 */
module Validation {
  import opened Strings
  import opened Optional

  /** A chunk record as read back from the chunk file; `None` is an absent key. */
  datatype RawRecord = RawRecord(
    chunkId: Option<string>,
    text: Option<string>,
    sourceDocument: Option<string>,
    department: Option<string>,
    accessibleRoles: Option<seq<string>>,
    tokenCount: Option<int>)

  /** A record with all six fields present. */
  datatype Record = Record(
    chunkId: string,
    text: string,
    sourceDocument: string,
    department: string,
    accessibleRoles: seq<string>,
    tokenCount: int)

  /** Why validation stopped. */
  datatype Failure =
    | NoChunks
    | MissingFields(index: nat, missing: set<string>)
    | TokenCountOutOfRange(chunkId: string, tokens: int)
    | EmptyText(chunkId: string)
    | NoSourceDocuments
    | NoAccessibleRoles(chunkId: string)
    | EmployeesInFinance(chunkId: string)
    | EmployeesMissingFromGeneral(chunkId: string)

  datatype Outcome = Passed | Failed(failure: Failure)

  const MinTokens: int := 300
  const MaxTokens: int := 512

  /** The required keys a record lacks. */
  function Missing(r: RawRecord): (m: set<string>)
    ensures m == {} <==> Complete(r)
  {
    (if r.chunkId.None? then {"chunk_id"} else {})
    + (if r.text.None? then {"text"} else {})
    + (if r.sourceDocument.None? then {"source_document"} else {})
    + (if r.department.None? then {"department"} else {})
    + (if r.accessibleRoles.None? then {"accessible_roles"} else {})
    + (if r.tokenCount.None? then {"token_count"} else {})
  }

  /** All six required keys are present. */
  predicate Complete(r: RawRecord) {
    r.chunkId.Some? && r.text.Some? && r.sourceDocument.Some?
    && r.department.Some? && r.accessibleRoles.Some? && r.tokenCount.Some?
  }

  function ToRecord(r: RawRecord): Record
    requires Complete(r)
  {
    Record(r.chunkId.value, r.text.value, r.sourceDocument.value, r.department.value,
           r.accessibleRoles.value, r.tokenCount.value)
  }

  function Records(rs: seq<RawRecord>): (cs: seq<Record>)
    requires forall i :: 0 <= i < |rs| ==> Complete(rs[i])
    ensures |cs| == |rs|
  {
    seq(|rs|, i requires 0 <= i < |rs| => ToRecord(rs[i]))
  }

  /** The field check: the first record (from `offset` on) lacking a field. */
  function FirstMissing(rs: seq<RawRecord>, offset: nat): (f: Option<Failure>)
    ensures f.None? <==> forall i :: 0 <= i < |rs| ==> Complete(rs[i])
    ensures f.Some? ==> exists i :: 0 <= i < |rs| && !Complete(rs[i])
                          && (forall j :: 0 <= j < i ==> Complete(rs[j]))
                          && f.value == MissingFields(offset + i, Missing(rs[i]))
  {
    if |rs| == 0 then None
    else if !Complete(rs[0]) then Some(MissingFields(offset, Missing(rs[0])))
    else
      var f := FirstMissing(rs[1..], offset + 1);
      assert forall i :: 1 <= i < |rs| ==> rs[i] == rs[1..][i - 1];
      if f.Some? then
        var i :| 0 <= i < |rs[1..]| && !Complete(rs[1..][i])
                 && (forall j :: 0 <= j < i ==> Complete(rs[1..][j]))
                 && f.value == MissingFields(offset + 1 + i, Missing(rs[1..][i]));
        assert forall j :: 0 <= j < i + 1 ==> Complete(rs[j]);
        f
      else f
  }

  /** The fault one per-record check finds in one record, if any. */
  function FirstFault(cs: seq<Record>, fault: Record -> Option<Failure>): (f: Option<Failure>)
    ensures f.None? <==> forall i :: 0 <= i < |cs| ==> fault(cs[i]).None?
    ensures f.Some? ==> exists i :: 0 <= i < |cs| && fault(cs[i]) == f
                          && forall j :: 0 <= j < i ==> fault(cs[j]).None?
  {
    if |cs| == 0 then None
    else if fault(cs[0]).Some? then fault(cs[0])
    else
      var f := FirstFault(cs[1..], fault);
      assert forall i :: 1 <= i < |cs| ==> cs[i] == cs[1..][i - 1];
      if f.Some? then
        var i :| 0 <= i < |cs[1..]| && fault(cs[1..][i]) == f
                 && forall j :: 0 <= j < i ==> fault(cs[1..][j]).None?;
        assert fault(cs[i + 1]) == f;
        f
      else f
  }

  function LowerAll(roles: seq<string>): seq<string> {
    seq(|roles|, k requires 0 <= k < |roles| => Lower(roles[k]))
  }

  function TokenFault(c: Record): Option<Failure> {
    if c.tokenCount < MinTokens || c.tokenCount > MaxTokens then Some(TokenCountOutOfRange(c.chunkId, c.tokenCount)) else None
  }

  function TextFault(c: Record): Option<Failure> {
    if Strip(c.text) == "" then Some(EmptyText(c.chunkId)) else None
  }

  function RolesFault(c: Record): Option<Failure> {
    if |c.accessibleRoles| == 0 then Some(NoAccessibleRoles(c.chunkId)) else None
  }

  function FinanceFault(c: Record): Option<Failure> {
    if Lower(c.department) == "finance" && "employees" in LowerAll(c.accessibleRoles) then Some(EmployeesInFinance(c.chunkId)) else None
  }

  function GeneralFault(c: Record): Option<Failure> {
    if Lower(c.department) == "general" && "employees" !in LowerAll(c.accessibleRoles) then Some(EmployeesMissingFromGeneral(c.chunkId)) else None
  }

  function SourceDocuments(cs: seq<Record>): set<string> {
    set i | 0 <= i < |cs| :: cs[i].sourceDocument
  }

  /** The checks after the field check, in the order the script runs them. */
  function ValidateComplete(cs: seq<Record>): Outcome
  {
    var tokens := FirstFault(cs, TokenFault);
    if tokens.Some? then Failed(tokens.value) else
    var text := FirstFault(cs, TextFault);
    if text.Some? then Failed(text.value) else
    if |SourceDocuments(cs)| == 0 then Failed(NoSourceDocuments) else
    var roles := FirstFault(cs, RolesFault);
    if roles.Some? then Failed(roles.value) else
    var finance := FirstFault(cs, FinanceFault);
    if finance.Some? then Failed(finance.value) else
    var general := FirstFault(cs, GeneralFault);
    if general.Some? then Failed(general.value) else
    Passed
  }

  /** The whole validation run. */
  function Validate(rs: seq<RawRecord>): Outcome
  {
    if |rs| == 0 then Failed(NoChunks)
    else
      var missing := FirstMissing(rs, 0);
      if missing.Some? then Failed(missing.value)
      else ValidateComplete(Records(rs))
  }

  /** What a passing corpus looks like, stated record by record. */
  predicate GoodRecord(c: Record) {
    && MinTokens <= c.tokenCount <= MaxTokens
    && Strip(c.text) != ""
    && |c.accessibleRoles| > 0
    && (Lower(c.department) == "finance" ==> "employees" !in LowerAll(c.accessibleRoles))
    && (Lower(c.department) == "general" ==> "employees" in LowerAll(c.accessibleRoles))
  }

  predicate Acceptable(rs: seq<RawRecord>) {
    && |rs| > 0
    && (forall i :: 0 <= i < |rs| ==> Complete(rs[i]))
    && (forall i :: 0 <= i < |rs| ==> GoodRecord(ToRecord(rs[i])))
  }

  lemma GoodRecordHasNoFault(c: Record)
    ensures GoodRecord(c) <==>
      TokenFault(c).None? && TextFault(c).None? && RolesFault(c).None?
      && FinanceFault(c).None? && GeneralFault(c).None?
  {
  }

  /** The source-document check never fires: a non-empty list always names a document. */
  lemma SourceCheckNeverFails(cs: seq<Record>)
    requires |cs| > 0
    ensures |SourceDocuments(cs)| > 0
  {
    assert cs[0].sourceDocument in SourceDocuments(cs);
  }

  /** The checks after the field check pass exactly when there is a record and every
      record is good. */
  lemma ValidateCompleteIffGood(cs: seq<Record>)
    ensures ValidateComplete(cs) == Passed <==> |cs| > 0 && forall i :: 0 <= i < |cs| ==> GoodRecord(cs[i])
  {
    if |cs| == 0 {
      assert SourceDocuments(cs) == {};
    } else {
      SourceCheckNeverFails(cs);
      var allNone := FirstFault(cs, TokenFault).None? && FirstFault(cs, TextFault).None?
        && FirstFault(cs, RolesFault).None? && FirstFault(cs, FinanceFault).None?
        && FirstFault(cs, GeneralFault).None?;
      assert ValidateComplete(cs) == Passed <==> allNone;
      forall i | 0 <= i < |cs|
        ensures GoodRecord(cs[i]) <==> TokenFault(cs[i]).None? && TextFault(cs[i]).None? && RolesFault(cs[i]).None?
                                       && FinanceFault(cs[i]).None? && GeneralFault(cs[i]).None?
      {
        GoodRecordHasNoFault(cs[i]);
      }
    }
  }

  /** Validation passes exactly when the corpus is acceptable. */
  lemma ValidateIffAcceptable(rs: seq<RawRecord>)
    ensures Validate(rs) == Passed <==> Acceptable(rs)
  {
    if |rs| > 0 && FirstMissing(rs, 0).None? {
      var cs := Records(rs);
      ValidateCompleteIffGood(cs);
      assert forall i :: 0 <= i < |rs| ==> cs[i] == ToRecord(rs[i]);
    }
  }

  /** An empty record list fails first of all. */
  lemma EmptyListFails()
    ensures Validate([]) == Failed(NoChunks)
  {
  }

  /** The first record lacking a field is reported with its position and missing keys,
      whatever else is wrong with the corpus. */
  lemma FirstIncompleteReported(rs: seq<RawRecord>, i: nat)
    requires i < |rs| && !Complete(rs[i])
    requires forall j :: 0 <= j < i ==> Complete(rs[j])
    ensures Validate(rs) == Failed(MissingFields(i, Missing(rs[i])))
  {
    var f := FirstMissing(rs, 0);
    var k :| 0 <= k < |rs| && !Complete(rs[k]) && (forall j :: 0 <= j < k ==> Complete(rs[j]))
             && f.value == MissingFields(k, Missing(rs[k]));
    assert k == i;
  }

  /** A non-empty list of complete records goes on to the record checks. */
  lemma CompleteGoesToRecordChecks(rs: seq<RawRecord>)
    requires |rs| > 0
    requires forall j :: 0 <= j < |rs| ==> Complete(rs[j])
    ensures Validate(rs) == ValidateComplete(Records(rs))
  {
  }

  /** The first record whose token count lies outside [300, 512] is reported, whatever
      else is wrong with the records. */
  lemma FirstTokenCountReported(cs: seq<Record>, i: nat)
    requires i < |cs| && !(MinTokens <= cs[i].tokenCount <= MaxTokens)
    requires forall j :: 0 <= j < i ==> MinTokens <= cs[j].tokenCount <= MaxTokens
    ensures ValidateComplete(cs) == Failed(TokenCountOutOfRange(cs[i].chunkId, cs[i].tokenCount))
  {
    var f := FirstFault(cs, TokenFault);
    assert TokenFault(cs[i]).Some?;
    var k :| 0 <= k < |cs| && TokenFault(cs[k]) == f && forall j :: 0 <= j < k ==> TokenFault(cs[j]).None?;
    assert k == i;
  }

  /** Records with good token counts, text and role lists but a Finance record (in any
      letter case) granting `employees` fail on the first such record. */
  lemma EmployeesInFinanceReported(cs: seq<Record>, i: nat)
    requires forall j :: 0 <= j < |cs| ==> MinTokens <= cs[j].tokenCount <= MaxTokens
    requires forall j :: 0 <= j < |cs| ==> Strip(cs[j].text) != "" && |cs[j].accessibleRoles| > 0
    requires i < |cs| && Lower(cs[i].department) == "finance"
    requires "employees" in LowerAll(cs[i].accessibleRoles)
    requires forall j :: 0 <= j < i ==> FinanceFault(cs[j]).None?
    ensures ValidateComplete(cs) == Failed(EmployeesInFinance(cs[i].chunkId))
  {
    assert FirstFault(cs, TokenFault).None? by {
      assert forall j :: 0 <= j < |cs| ==> TokenFault(cs[j]).None?;
    }
    assert FirstFault(cs, TextFault).None? by {
      assert forall j :: 0 <= j < |cs| ==> TextFault(cs[j]).None?;
    }
    assert FirstFault(cs, RolesFault).None? by {
      assert forall j :: 0 <= j < |cs| ==> RolesFault(cs[j]).None?;
    }
    SourceCheckNeverFails(cs);
    var f := FirstFault(cs, FinanceFault);
    assert FinanceFault(cs[i]).Some?;
    var k :| 0 <= k < |cs| && FinanceFault(cs[k]) == f && forall j :: 0 <= j < k ==> FinanceFault(cs[j]).None?;
    assert k == i;
  }

  /** A General record (in any letter case) not granting `employees` fails validation,
      once the earlier checks pass. */
  lemma GeneralWithoutEmployeesFails(cs: seq<Record>, i: nat)
    requires i < |cs| && Lower(cs[i].department) == "general"
    requires "employees" !in LowerAll(cs[i].accessibleRoles)
    ensures ValidateComplete(cs) != Passed
  {
    ValidateCompleteIffGood(cs);
  }
}
