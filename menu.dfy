/** The decisions of the terminal shell, with the prompts and printing taken
    away: each action receives the texts the user typed (already stripped of
    surrounding blanks) and decides which registry operation, if any, runs
    and with which arguments. Ids are typed as text and handed to the store,
    which reads them as integer keys (`ParseKey`); a text it cannot read
    makes the statement raise, which the operations report as failure. */
module Menu {
  import opened Sql
  import opened Text
  import CitizenOps
  import OfficerOps
  import CaseOps
  import CaseUpdateOps

  /** The text a destructive action must be confirmed with. */
  const Confirmation: string := "DELETE"

  /** The status menu shared by the status filter and the status change. */
  const StatusMap: map<string, string> := map["1" := "Pending", "2" := "Under Investigation", "3" := "Resolved", "4" := "Closed"]

  const Statuses: set<string> := {"Pending", "Under Investigation", "Resolved", "Closed"}

  /** `status_map[choice]`, or `None` for a choice not in the menu. */
  function StatusFromChoice(choice: string): (r: Option<string>)
    ensures r.Some? <==> choice in {"1", "2", "3", "4"}
    ensures r.Some? ==> r.value in Statuses
    ensures choice == "1" ==> r == Some("Pending")
    ensures choice == "2" ==> r == Some("Under Investigation")
    ensures choice == "3" ==> r == Some("Resolved")
    ensures choice == "4" ==> r == Some("Closed")
  {
    if choice in StatusMap then Some(StatusMap[choice]) else None
  }

  /** Different menu choices give different statuses, and every status has a choice. */
  lemma StatusChoiceBijective(a: string, b: string, status: string)
    ensures StatusFromChoice(a).Some? && StatusFromChoice(a) == StatusFromChoice(b) ==> a == b
    ensures status in Statuses ==> exists c :: StatusFromChoice(c) == Some(status)
  {
    if status in Statuses {
      if status == "Pending" {
        assert StatusFromChoice("1") == Some(status);
      } else if status == "Under Investigation" {
        assert StatusFromChoice("2") == Some(status);
      } else if status == "Resolved" {
        assert StatusFromChoice("3") == Some(status);
      } else {
        assert StatusFromChoice("4") == Some(status);
      }
    }
  }

  /** `register_citizen`: refused unless both the name and the phone are
      given; a blank email or address is stored as missing. */
  method RegisterCitizen(t: CitizenOps.CitizenTable, fullName: string, phoneNumber: string, email: string, address: string, fault: bool)
    returns (citizenId: Option<int>)
    requires t.Valid()
    modifies t
    ensures t.Valid()
    ensures citizenId.Some? <==> fullName != "" && phoneNumber != "" && !fault
    ensures citizenId.Some? ==>
      && citizenId.value == old(t.nextId) && t.nextId == old(t.nextId) + 1
      && t.rows == old(t.rows)[citizenId.value := CitizenOps.Citizen(fullName, phoneNumber, BlankToNone(email), BlankToNone(address))]
    ensures citizenId.None? ==> t.rows == old(t.rows) && t.nextId == old(t.nextId)
  {
    if !(fullName != "" && phoneNumber != "") {
      return None;
    }
    citizenId := t.AddCitizen(fullName, phoneNumber, BlankToNone(email), BlankToNone(address), fault);
  }

  /** The key an id typed in the shell names in `rows`, when it names one. */
  function Lookup<R>(rows: map<int, R>, idText: string): (key: Option<int>)
    ensures key.Some? <==> ParseKey(idText).Some? && ParseKey(idText).value in rows
    ensures key.Some? ==> key == ParseKey(idText)
  {
    var k := ParseKey(idText);
    if k.Some? && k.value in rows then k else None
  }

  /** `report_crime`: the citizen must exist and the crime type, description
      and location must all be given; the case starts with no officer. */
  method ReportCrime(citizens: CitizenOps.CitizenTable, cases: CaseOps.CaseTable, citizenIdText: string,
                     crimeType: string, description: string, location: string, now: int, fault: bool)
    returns (caseId: Option<int>)
    requires cases.Valid()
    modifies cases
    ensures cases.Valid()
    ensures caseId.Some? <==>
      Lookup(citizens.rows, citizenIdText).Some? && crimeType != "" && description != "" && location != "" && !fault
    ensures caseId.Some? ==>
      && caseId.value == old(cases.nextId) && cases.nextId == old(cases.nextId) + 1
      && cases.rows == old(cases.rows)[caseId.value :=
           CaseOps.Case(ParseKey(citizenIdText).value, None, crimeType, description, location, cases.defaultStatus, now)]
    ensures caseId.None? ==> cases.rows == old(cases.rows) && cases.nextId == old(cases.nextId)
  {
    var key := Lookup(citizens.rows, citizenIdText);
    if key.None? {
      return None;
    }
    if crimeType != "" && description != "" && location != "" {
      caseId := cases.AddCase(key.value, crimeType, description, location, None, now, fault);
    } else {
      caseId := None;
    }
  }

  /** The test `view_citizen_cases` applies to one case: the citizen column of
      its detail, rendered as text, is the id that was typed. */
  predicate ReportedBy(cases: map<int, CaseOps.Case>, citizens: map<int, CitizenOps.Citizen>, officers: map<int, OfficerOps.Officer>, caseId: int, citizenIdText: string)
  {
    var detail := CaseOps.GetCaseById(cases, citizens, officers, caseId);
    detail.Some? && DecimalString(detail.value.record.citizenId) == citizenIdText
  }

  /** A row of `get_all_cases` whose case has the typed citizen id as its text. */
  predicate Matches(cases: map<int, CaseOps.Case>, s: CaseOps.CaseSummary, citizenIdText: string)
  {
    s.caseId in cases && DecimalString(cases[s.caseId].citizenId) == citizenIdText
  }

  /** For a row of `get_all_cases`, the test on its detail is the test on its case. */
  lemma ReportedByMatches(cases: map<int, CaseOps.Case>, citizens: map<int, CitizenOps.Citizen>, officers: map<int, OfficerOps.Officer>,
                          s: CaseOps.CaseSummary, citizenIdText: string)
    requires CaseOps.Joined(cases, citizens, s.caseId)
    ensures ReportedBy(cases, citizens, officers, s.caseId, citizenIdText) <==> Matches(cases, s, citizenIdText)
  {
  }

  /** `view_citizen_cases`: the rows of `get_all_cases` whose case the typed
      citizen id reported, kept in the order of `get_all_cases`. */
  method ViewCitizenCases(cases: map<int, CaseOps.Case>, citizens: map<int, CitizenOps.Citizen>, officers: map<int, OfficerOps.Officer>, citizenIdText: string)
    returns (shown: seq<CaseOps.CaseSummary>)
    ensures forall i :: 0 <= i < |shown| ==>
      shown[i] in CaseOps.GetAllCases(cases, citizens, officers) && Matches(cases, shown[i], citizenIdText)
    ensures forall s :: s in CaseOps.GetAllCases(cases, citizens, officers) && Matches(cases, s, citizenIdText) ==> s in shown
    ensures forall i, j :: 0 <= i < j < |shown| ==> shown[i].caseId > shown[j].caseId
  {
    var all := CaseOps.GetAllCases(cases, citizens, officers);
    shown := KeepReportedBy(all, cases, citizens, officers, citizenIdText);
  }

  /** What the loop of `view_citizen_cases` has built after the first `k` rows
      of `all`: exactly the matching ones among them, in decreasing key
      order, each with a larger key than every row still to come. */
  predicate KeptSoFar(all: seq<CaseOps.CaseSummary>, cases: map<int, CaseOps.Case>, citizenIdText: string,
                      k: int, shown: seq<CaseOps.CaseSummary>)
    requires 0 <= k <= |all|
  {
    && (forall i :: 0 <= i < |shown| ==> shown[i] in all[..k] && Matches(cases, shown[i], citizenIdText))
    && (forall i :: 0 <= i < k && Matches(cases, all[i], citizenIdText) ==> all[i] in shown)
    && (forall i, j :: 0 <= i < |shown| && k <= j < |all| ==> shown[i].caseId > all[j].caseId)
    && (forall i, j :: 0 <= i < j < |shown| ==> shown[i].caseId > shown[j].caseId)
  }

  /** One turn of the loop on a matching row: the row is kept. */
  lemma KeepMatching(all: seq<CaseOps.CaseSummary>, cases: map<int, CaseOps.Case>, citizenIdText: string,
                     k: int, shown: seq<CaseOps.CaseSummary>)
    requires 0 <= k < |all| && Matches(cases, all[k], citizenIdText)
    requires forall i, j :: 0 <= i < j < |all| ==> all[i].caseId > all[j].caseId
    requires KeptSoFar(all, cases, citizenIdText, k, shown)
    ensures KeptSoFar(all, cases, citizenIdText, k + 1, shown + [all[k]])
  {
    var next := shown + [all[k]];
    assert all[..k + 1] == all[..k] + [all[k]];
    forall i | 0 <= i < |next|
      ensures next[i] in all[..k + 1] && Matches(cases, next[i], citizenIdText)
    {
      if i < |shown| {
        assert next[i] == shown[i] && shown[i] in all[..k];
      }
    }
    forall i | 0 <= i < k + 1 && Matches(cases, all[i], citizenIdText)
      ensures all[i] in next
    {
      if i < k {
        assert all[i] in shown;
      } else {
        assert next[|shown|] == all[k];
      }
    }
    forall i, j | 0 <= i < |next| && k + 1 <= j < |all|
      ensures next[i].caseId > all[j].caseId
    {
      if i < |shown| {
        assert next[i] == shown[i];
      }
    }
    forall i, j | 0 <= i < j < |next|
      ensures next[i].caseId > next[j].caseId
    {
      assert next[i] == shown[i];
      if j < |shown| {
        assert next[j] == shown[j];
      } else {
        assert shown[i].caseId > all[k].caseId;
      }
    }
  }

  /** One turn of the loop on a row that does not match: nothing is kept. */
  lemma SkipOther(all: seq<CaseOps.CaseSummary>, cases: map<int, CaseOps.Case>, citizenIdText: string,
                  k: int, shown: seq<CaseOps.CaseSummary>)
    requires 0 <= k < |all| && !Matches(cases, all[k], citizenIdText)
    requires KeptSoFar(all, cases, citizenIdText, k, shown)
    ensures KeptSoFar(all, cases, citizenIdText, k + 1, shown)
  {
    assert all[..k + 1] == all[..k] + [all[k]];
  }

  /** After the last row, the loop has kept exactly the matching rows. */
  lemma KeptAll(all: seq<CaseOps.CaseSummary>, cases: map<int, CaseOps.Case>, citizenIdText: string,
                shown: seq<CaseOps.CaseSummary>)
    requires KeptSoFar(all, cases, citizenIdText, |all|, shown)
    ensures forall i :: 0 <= i < |shown| ==> shown[i] in all && Matches(cases, shown[i], citizenIdText)
    ensures forall s :: s in all && Matches(cases, s, citizenIdText) ==> s in shown
    ensures forall i, j :: 0 <= i < j < |shown| ==> shown[i].caseId > shown[j].caseId
  {
    assert all[..|all|] == all;
  }

  /** The loop of `view_citizen_cases` over the rows `all`. */
  method KeepReportedBy(all: seq<CaseOps.CaseSummary>, cases: map<int, CaseOps.Case>, citizens: map<int, CitizenOps.Citizen>,
                        officers: map<int, OfficerOps.Officer>, citizenIdText: string)
    returns (shown: seq<CaseOps.CaseSummary>)
    requires forall i :: 0 <= i < |all| ==> CaseOps.Joined(cases, citizens, all[i].caseId)
    requires forall i, j :: 0 <= i < j < |all| ==> all[i].caseId > all[j].caseId
    ensures forall i :: 0 <= i < |shown| ==> shown[i] in all && Matches(cases, shown[i], citizenIdText)
    ensures forall s :: s in all && Matches(cases, s, citizenIdText) ==> s in shown
    ensures forall i, j :: 0 <= i < j < |shown| ==> shown[i].caseId > shown[j].caseId
  {
    shown := [];
    for k := 0 to |all|
      invariant KeptSoFar(all, cases, citizenIdText, k, shown)
    {
      var found := ReportedBy(cases, citizens, officers, all[k].caseId, citizenIdText);
      ReportedByMatches(cases, citizens, officers, all[k], citizenIdText);
      if found {
        KeepMatching(all, cases, citizenIdText, k, shown);
        shown := shown + [all[k]];
      } else {
        SkipOther(all, cases, citizenIdText, k, shown);
      }
    }
    KeptAll(all, cases, citizenIdText, shown);
  }

  /** A typed id with a leading zero, such as "07", is never the text of a
      citizen key, so `view_citizen_cases` shows no case for it, although the
      store reads it as a key when the same text is typed into `report_crime`. */
  lemma LeadingZeroMatchesNoCitizen(citizenIdText: string, n: int)
    requires |citizenIdText| > 1 && citizenIdText[0] == '0'
    ensures DecimalString(n) != citizenIdText
  {
    if n >= 0 {
      NoLeadingZero(n);
      if n == 0 {
        assert DecimalString(n) == "0";
      }
    }
  }

  /** For the canonical text of a key, `view_citizen_cases` matches exactly the
      cases of that citizen. */
  lemma CanonicalIdMatchesItsCitizen(citizenId: int, n: int)
    ensures DecimalString(n) == DecimalString(citizenId) <==> n == citizenId
  {
    if DecimalString(n) == DecimalString(citizenId) {
      DecimalStringInjective(n, citizenId);
    }
  }

  /** `update_citizen_info`: the citizen must exist; each blank answer keeps
      the stored value. */
  method UpdateCitizenInfo(t: CitizenOps.CitizenTable, citizenIdText: string,
                           fullName: string, phoneNumber: string, email: string, address: string, fault: bool)
    returns (ok: bool)
    requires t.Valid()
    modifies t
    ensures t.Valid() && t.nextId == old(t.nextId)
    ensures var changes := CitizenOps.CitizenChanges(BlankToNone(fullName), BlankToNone(phoneNumber), BlankToNone(email), BlankToNone(address));
            && (ok <==> Lookup(old(t.rows), citizenIdText).Some? && CitizenOps.HasChange(changes) && !fault)
            && (ok ==> t.rows == old(t.rows)[ParseKey(citizenIdText).value := CitizenOps.Patched(old(t.rows)[ParseKey(citizenIdText).value], changes)])
            && (!ok ==> t.rows == old(t.rows))
  {
    var key := Lookup(t.rows, citizenIdText);
    if key.None? {
      return false;
    }
    var changes := CitizenOps.CitizenChanges(BlankToNone(fullName), BlankToNone(phoneNumber), BlankToNone(email), BlankToNone(address));
    ok := t.UpdateCitizen(key.value, changes, fault);
  }

  /** `delete_citizen_account`: the citizen must exist and the deletion must
      be confirmed with exactly "DELETE". */
  method DeleteCitizenAccount(t: CitizenOps.CitizenTable, citizenIdText: string, confirm: string, fault: bool)
    returns (deleted: bool)
    requires t.Valid()
    modifies t
    ensures t.Valid() && t.nextId == old(t.nextId)
    ensures deleted <==> Lookup(old(t.rows), citizenIdText).Some? && confirm == Confirmation && !fault
    ensures t.rows == if deleted then old(t.rows) - {ParseKey(citizenIdText).value} else old(t.rows)
  {
    var key := Lookup(t.rows, citizenIdText);
    if key.None? {
      return false;
    }
    if confirm == Confirmation {
      deleted := t.DeleteCitizen(key.value, fault);
    } else {
      deleted := false;
    }
  }

  /** `register_officer`: refused unless the name, badge number, rank and
      phone are all given; a blank station is stored as missing. */
  method RegisterOfficer(t: OfficerOps.OfficerTable, fullName: string, badgeNumber: string, rank: string, phoneNumber: string,
                         station: string, fault: bool)
    returns (officerId: Option<int>)
    requires t.Valid()
    modifies t
    ensures t.Valid()
    ensures officerId.Some? <==> fullName != "" && badgeNumber != "" && rank != "" && phoneNumber != "" && !fault
    ensures officerId.Some? ==>
      && officerId.value == old(t.nextId) && t.nextId == old(t.nextId) + 1
      && t.rows == old(t.rows)[officerId.value := OfficerOps.Officer(fullName, badgeNumber, rank, phoneNumber, BlankToNone(station))]
    ensures officerId.None? ==> t.rows == old(t.rows) && t.nextId == old(t.nextId)
  {
    if fullName != "" && badgeNumber != "" && rank != "" && phoneNumber != "" {
      officerId := t.AddOfficer(fullName, badgeNumber, rank, phoneNumber, BlankToNone(station), fault);
    } else {
      officerId := None;
    }
  }

  /** `filter_cases_by_status`: a choice outside the menu runs no query. */
  function FilterCasesByStatus(cases: map<int, CaseOps.Case>, citizens: map<int, CitizenOps.Citizen>, choice: string): (r: Option<seq<CaseOps.CaseBrief>>)
    ensures r.Some? <==> StatusFromChoice(choice).Some?
    ensures r.Some? ==> forall i :: 0 <= i < |r.value| ==> r.value[i].status == StatusFromChoice(choice).value
    ensures r.Some? ==> r.value == CaseOps.GetCasesByStatus(cases, citizens, StatusFromChoice(choice).value)
  {
    match StatusFromChoice(choice)
    case Some(status) => Some(CaseOps.GetCasesByStatus(cases, citizens, status))
    case None => None
  }

  /** `assign_officer`: both ids go to the store as typed. */
  method AssignOfficer(cases: CaseOps.CaseTable, caseIdText: string, officerIdText: string, fault: bool) returns (ok: bool)
    requires cases.Valid()
    modifies cases
    ensures cases.Valid() && cases.nextId == old(cases.nextId)
    ensures ok <==> ParseKey(caseIdText).Some? && ParseKey(officerIdText).Some? && !fault
    ensures ok ==> cases.rows == CaseOps.WithOfficer(old(cases.rows), ParseKey(caseIdText).value, ParseKey(officerIdText).value)
    ensures !ok ==> cases.rows == old(cases.rows)
  {
    var caseKey, officerKey := ParseKey(caseIdText), ParseKey(officerIdText);
    if caseKey.None? || officerKey.None? {
      return false;
    }
    ok := cases.AssignOfficer(caseKey.value, officerKey.value, fault);
  }

  /** `update_status`: a choice outside the menu changes nothing; the case
      itself is not looked up first. */
  method UpdateStatus(cases: CaseOps.CaseTable, caseIdText: string, choice: string, fault: bool) returns (ok: bool)
    requires cases.Valid()
    modifies cases
    ensures cases.Valid() && cases.nextId == old(cases.nextId)
    ensures ok <==> StatusFromChoice(choice).Some? && ParseKey(caseIdText).Some? && !fault
    ensures ok ==> cases.rows == CaseOps.WithStatus(old(cases.rows), ParseKey(caseIdText).value, StatusFromChoice(choice).value)
    ensures !ok ==> cases.rows == old(cases.rows)
  {
    var status := StatusFromChoice(choice);
    if status.None? {
      return false;
    }
    var caseKey := ParseKey(caseIdText);
    if caseKey.None? {
      return false;
    }
    ok := cases.UpdateCaseStatus(caseKey.value, status.value, fault);
  }

  /** `add_update`: the case id, officer id and note must all be given. */
  method AddUpdate(updates: CaseUpdateOps.CaseUpdateTable, caseIdText: string, officerIdText: string, updateNote: string, now: int, fault: bool)
    returns (updateId: Option<int>)
    requires updates.Valid()
    modifies updates
    ensures updates.Valid()
    ensures updateId.Some? <==>
      caseIdText != "" && officerIdText != "" && updateNote != ""
      && ParseKey(caseIdText).Some? && ParseKey(officerIdText).Some? && !fault
    ensures updateId.Some? ==>
      && updateId.value == old(updates.nextId) && updates.nextId == old(updates.nextId) + 1
      && updates.rows == old(updates.rows)[updateId.value :=
           CaseUpdateOps.CaseUpdate(ParseKey(caseIdText).value, ParseKey(officerIdText).value, updateNote, now)]
    ensures updateId.None? ==> updates.rows == old(updates.rows) && updates.nextId == old(updates.nextId)
  {
    if !(caseIdText != "" && officerIdText != "" && updateNote != "") {
      return None;
    }
    var caseKey, officerKey := ParseKey(caseIdText), ParseKey(officerIdText);
    if caseKey.None? || officerKey.None? {
      return None;
    }
    updateId := updates.AddCaseUpdate(caseKey.value, officerKey.value, updateNote, now, fault);
  }

  /** `delete_case_menu`: the case must be found by `get_case_by_id` (so its
      citizen must exist) and the deletion confirmed with exactly "DELETE". */
  method DeleteCaseMenu(cases: CaseOps.CaseTable, citizens: map<int, CitizenOps.Citizen>, officers: map<int, OfficerOps.Officer>,
                        caseIdText: string, confirm: string, fault: bool)
    returns (deleted: bool)
    requires cases.Valid()
    modifies cases
    ensures cases.Valid() && cases.nextId == old(cases.nextId)
    ensures deleted <==>
      && ParseKey(caseIdText).Some? && CaseOps.Joined(old(cases.rows), citizens, ParseKey(caseIdText).value)
      && confirm == Confirmation && !fault
    ensures cases.rows == if deleted then old(cases.rows) - {ParseKey(caseIdText).value} else old(cases.rows)
  {
    var caseKey := ParseKey(caseIdText);
    if caseKey.None? || CaseOps.GetCaseById(cases.rows, citizens, officers, caseKey.value).None? {
      return false;
    }
    if confirm == Confirmation {
      deleted := cases.DeleteCase(caseKey.value, fault);
    } else {
      deleted := false;
    }
  }

  /** `delete_update_menu`: the case must have at least one listed note and
      the deletion must be confirmed with exactly "DELETE"; the update id is
      then deleted as typed, whether or not it is one of that case's notes. */
  method DeleteUpdateMenu(updates: CaseUpdateOps.CaseUpdateTable, officers: map<int, OfficerOps.Officer>,
                          caseIdText: string, updateIdText: string, confirm: string, fault: bool)
    returns (deleted: bool)
    requires updates.Valid()
    modifies updates
    ensures updates.Valid() && updates.nextId == old(updates.nextId)
    ensures deleted <==>
      && ParseKey(caseIdText).Some? && CaseUpdateOps.GetUpdatesByCase(old(updates.rows), officers, ParseKey(caseIdText).value) != []
      && confirm == Confirmation && ParseKey(updateIdText).Some? && !fault
    ensures updates.rows == if deleted then old(updates.rows) - {ParseKey(updateIdText).value} else old(updates.rows)
  {
    var caseKey := ParseKey(caseIdText);
    if caseKey.None? || CaseUpdateOps.GetUpdatesByCase(updates.rows, officers, caseKey.value) == [] {
      return false;
    }
    if confirm != Confirmation {
      return false;
    }
    var updateKey := ParseKey(updateIdText);
    if updateKey.None? {
      return false;
    }
    deleted := updates.DeleteCaseUpdate(updateKey.value, fault);
  }

  /** `delete_officer_account`: the officer must exist and the deletion must
      be confirmed with exactly "DELETE". */
  method DeleteOfficerAccount(t: OfficerOps.OfficerTable, officerIdText: string, confirm: string, fault: bool)
    returns (deleted: bool)
    requires t.Valid()
    modifies t
    ensures t.Valid() && t.nextId == old(t.nextId)
    ensures deleted <==> Lookup(old(t.rows), officerIdText).Some? && confirm == Confirmation && !fault
    ensures t.rows == if deleted then old(t.rows) - {ParseKey(officerIdText).value} else old(t.rows)
  {
    var key := Lookup(t.rows, officerIdText);
    if key.None? {
      return false;
    }
    if confirm == Confirmation {
      deleted := t.DeleteOfficer(key.value, fault);
    } else {
      deleted := false;
    }
  }
}
