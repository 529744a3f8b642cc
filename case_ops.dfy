/** The `cases` table and the operations on it: insert, the joined selects
    (all cases, one case, and the status, location and crime-type filters),
    the officer assignment, the status change, delete, and the column
    selection of the case listing. */
module CaseOps {
  import opened Sql
  import opened Text
  import opened Ordering
  import CitizenOps
  import OfficerOps

  /** One row of `cases`; its key `case_id` is the key of the table's map.
      `reportedAt` is the store's timestamp, an opaque totally ordered value. */
  datatype Case = Case(
    citizenId: int, officerId: Option<int>, crimeType: string, description: string,
    location: string, status: string, reportedAt: int)

  /** A row of `get_all_cases`: the case's columns, the reporting citizen's
      name and the assigned officer's name, if any. */
  datatype CaseSummary = CaseSummary(
    caseId: int, crimeType: string, description: string, location: string,
    status: string, reportedAt: int, citizenName: string, officerName: Option<string>)

  /** A row of the status, location and crime-type filters. */
  datatype CaseBrief = CaseBrief(
    caseId: int, crimeType: string, location: string, status: string,
    reportedAt: int, citizenName: string)

  /** The row of `get_case_by_id`: every column of the case, then the citizen's
      name and phone and the officer's name and badge. */
  datatype CaseDetail = CaseDetail(
    caseId: int, record: Case, citizenName: string, citizenPhone: string,
    officerName: Option<string>, officerBadge: Option<string>)

  /** `JOIN citizens cit ON c.citizen_id = cit.citizen_id`: a case takes part
      in the joined selects only while its citizen exists. */
  predicate Joined(cases: map<int, Case>, citizens: map<int, CitizenOps.Citizen>, caseId: int)
  {
    caseId in cases && cases[caseId].citizenId in citizens
  }

  /** `LEFT JOIN officers o ON c.officer_id = o.officer_id`, read as the
      officer's row: absent when the case has no officer or the officer is gone. */
  function AssignedOfficer(officerId: Option<int>, officers: map<int, OfficerOps.Officer>): (r: Option<OfficerOps.Officer>)
    ensures r.Some? <==> officerId.Some? && officerId.value in officers
    ensures r.Some? ==> r.value == officers[officerId.value]
  {
    if officerId.Some? && officerId.value in officers then Some(officers[officerId.value]) else None
  }

  function OfficerName(officerId: Option<int>, officers: map<int, OfficerOps.Officer>): Option<string>
  {
    match AssignedOfficer(officerId, officers)
    case Some(o) => Some(o.fullName)
    case None => None
  }

  function OfficerBadge(officerId: Option<int>, officers: map<int, OfficerOps.Officer>): Option<string>
  {
    match AssignedOfficer(officerId, officers)
    case Some(o) => Some(o.badgeNumber)
    case None => None
  }

  function SummaryOf(caseId: int, c: Case, citizens: map<int, CitizenOps.Citizen>, officers: map<int, OfficerOps.Officer>): CaseSummary
    requires c.citizenId in citizens
  {
    CaseSummary(caseId, c.crimeType, c.description, c.location, c.status, c.reportedAt,
      citizens[c.citizenId].fullName, OfficerName(c.officerId, officers))
  }

  function BriefOf(caseId: int, c: Case, citizens: map<int, CitizenOps.Citizen>): CaseBrief
    requires c.citizenId in citizens
  {
    CaseBrief(caseId, c.crimeType, c.location, c.status, c.reportedAt, citizens[c.citizenId].fullName)
  }

  /** The keys of the joined cases, largest first (`ORDER BY c.case_id DESC`). */
  function JoinedIds(cases: map<int, Case>, citizens: map<int, CitizenOps.Citizen>): (ids: seq<int>)
    ensures forall id :: id in ids <==> Joined(cases, citizens, id)
    ensures forall i :: 0 <= i < |ids| ==> ids[i] in cases && cases[ids[i]].citizenId in citizens
    ensures Descending(ids)
  {
    var ids := Where(KeysDescending(cases.Keys), id => Joined(cases, citizens, id));
    assert forall i :: 0 <= i < |ids| ==> ids[i] in cases && cases[ids[i]].citizenId in citizens by {
      forall i | 0 <= i < |ids| ensures ids[i] in cases && cases[ids[i]].citizenId in citizens {
        assert ids[i] in ids;
      }
    }
    ids
  }

  /** Definition: the joined cases `ids` as rows of `get_all_cases`, one per
      key in order. */
  function Summaries(ids: seq<int>, cases: map<int, Case>, citizens: map<int, CitizenOps.Citizen>, officers: map<int, OfficerOps.Officer>): (r: seq<CaseSummary>)
    requires forall i :: 0 <= i < |ids| ==> ids[i] in cases && cases[ids[i]].citizenId in citizens
    ensures |r| == |ids|
    ensures forall i :: 0 <= i < |r| ==> r[i] == SummaryOf(ids[i], cases[ids[i]], citizens, officers)
  {
    seq(|ids|, i requires 0 <= i < |ids| => SummaryOf(ids[i], cases[ids[i]], citizens, officers))
  }

  /** `SELECT c.case_id, ..., cit.full_name, o.full_name FROM cases c JOIN
      citizens ... LEFT JOIN officers ... ORDER BY c.case_id DESC`. */
  function GetAllCases(cases: map<int, Case>, citizens: map<int, CitizenOps.Citizen>, officers: map<int, OfficerOps.Officer>): (r: seq<CaseSummary>)
    ensures forall i :: 0 <= i < |r| ==>
      && Joined(cases, citizens, r[i].caseId)
      && r[i] == SummaryOf(r[i].caseId, cases[r[i].caseId], citizens, officers)
    ensures forall i, j :: 0 <= i < j < |r| ==> r[i].caseId > r[j].caseId
  {
    Summaries(JoinedIds(cases, citizens), cases, citizens, officers)
  }

  /** Every case whose citizen exists appears in `get_all_cases`. */
  lemma GetAllCasesComplete(cases: map<int, Case>, citizens: map<int, CitizenOps.Citizen>, officers: map<int, OfficerOps.Officer>, caseId: int)
    requires Joined(cases, citizens, caseId)
    ensures exists i :: 0 <= i < |GetAllCases(cases, citizens, officers)| && GetAllCases(cases, citizens, officers)[i].caseId == caseId
  {
    var ids := JoinedIds(cases, citizens);
    var i :| 0 <= i < |ids| && ids[i] == caseId;
    assert GetAllCases(cases, citizens, officers)[i].caseId == caseId;
  }

  /** The officer column of `get_all_cases` is the left join: the name of the
      assigned officer when that officer exists, and absent otherwise. */
  lemma SummaryOfficerName(caseId: int, c: Case, citizens: map<int, CitizenOps.Citizen>, officers: map<int, OfficerOps.Officer>)
    requires c.citizenId in citizens
    ensures SummaryOf(caseId, c, citizens, officers).officerName.Some? <==> c.officerId.Some? && c.officerId.value in officers
    ensures c.officerId.Some? && c.officerId.value in officers ==>
      SummaryOf(caseId, c, citizens, officers).officerName == Some(officers[c.officerId.value].fullName)
  {
  }

  /** Deleting a citizen leaves that citizen's cases in the table, but the
      inner join no longer lists them. */
  lemma DeletedCitizenCasesHidden(cases: map<int, Case>, citizens: map<int, CitizenOps.Citizen>, officers: map<int, OfficerOps.Officer>, citizenId: int)
    ensures var r := GetAllCases(cases, citizens - {citizenId}, officers);
            forall i :: 0 <= i < |r| ==> cases[r[i].caseId].citizenId != citizenId
  {
  }

  /** Deleting an officer leaves every case assigned to them listed, and
      every such listed row has no officer name. */
  lemma DeletedOfficerNotShown(cases: map<int, Case>, citizens: map<int, CitizenOps.Citizen>, officers: map<int, OfficerOps.Officer>, officerId: int)
    ensures var r := GetAllCases(cases, citizens, officers - {officerId});
            && (forall id :: Joined(cases, citizens, id) && cases[id].officerId == Some(officerId) ==>
                  exists i :: 0 <= i < |r| && r[i].caseId == id && r[i].officerName.None?)
            && (forall i :: 0 <= i < |r| && cases[r[i].caseId].officerId == Some(officerId) ==> r[i].officerName.None?)
  {
    var rest := officers - {officerId};
    assert officerId !in rest;
    MissingOfficerNotShown(cases, citizens, rest, officerId);
  }

  /** The same two facts for any officer table the officer is missing from. */
  lemma MissingOfficerNotShown(cases: map<int, Case>, citizens: map<int, CitizenOps.Citizen>, officers: map<int, OfficerOps.Officer>, officerId: int)
    requires officerId !in officers
    ensures var r := GetAllCases(cases, citizens, officers);
            && (forall id :: Joined(cases, citizens, id) && cases[id].officerId == Some(officerId) ==>
                  exists i :: 0 <= i < |r| && r[i].caseId == id && r[i].officerName.None?)
            && (forall i :: 0 <= i < |r| && cases[r[i].caseId].officerId == Some(officerId) ==> r[i].officerName.None?)
  {
    var r := GetAllCases(cases, citizens, officers);
    forall id | Joined(cases, citizens, id) && cases[id].officerId == Some(officerId)
      ensures exists i :: 0 <= i < |r| && r[i].caseId == id && r[i].officerName.None?
    {
      GetAllCasesComplete(cases, citizens, officers, id);
      var i :| 0 <= i < |r| && r[i].caseId == id;
      assert r[i] == SummaryOf(id, cases[id], citizens, officers);
    }
  }

  /** `SELECT c.*, cit.full_name, cit.phone_number, o.full_name, o.badge_number
      FROM cases c JOIN citizens ... LEFT JOIN officers ... WHERE c.case_id = %s`. */
  function GetCaseById(cases: map<int, Case>, citizens: map<int, CitizenOps.Citizen>, officers: map<int, OfficerOps.Officer>, caseId: int): (r: Option<CaseDetail>)
    ensures r.Some? <==> Joined(cases, citizens, caseId)
    ensures r.Some? ==>
      && r.value.caseId == caseId && r.value.record == cases[caseId]
      && r.value.citizenName == citizens[cases[caseId].citizenId].fullName
      && r.value.citizenPhone == citizens[cases[caseId].citizenId].phoneNumber
      && (r.value.officerName.Some? <==> cases[caseId].officerId.Some? && cases[caseId].officerId.value in officers)
      && (r.value.officerBadge.Some? <==> r.value.officerName.Some?)
      && (r.value.officerName.Some? ==>
            && r.value.officerName.value == officers[cases[caseId].officerId.value].fullName
            && r.value.officerBadge.value == officers[cases[caseId].officerId.value].badgeNumber)
  {
    if Joined(cases, citizens, caseId) then
      var c := cases[caseId];
      var citizen := citizens[c.citizenId];
      Some(CaseDetail(caseId, c, citizen.fullName, citizen.phoneNumber,
        OfficerName(c.officerId, officers), OfficerBadge(c.officerId, officers)))
    else None
  }

  /** Definition: the `reported_at` column of every case, the sort key of the
      filters. */
  function ReportedAt(cases: map<int, Case>): (time: map<int, int>)
    ensures time.Keys == cases.Keys
    ensures forall id :: id in cases ==> time[id] == cases[id].reportedAt
  {
    map id | id in cases :: cases[id].reportedAt
  }

  /** The keys of the joined cases that satisfy `keep`, each once, newest first
      (`WHERE ... ORDER BY c.reported_at DESC`). */
  function FilteredIds(cases: map<int, Case>, citizens: map<int, CitizenOps.Citizen>, keep: Case -> bool): (ids: seq<int>)
    ensures forall id :: id in ids <==> Joined(cases, citizens, id) && keep(cases[id])
    ensures forall i :: 0 <= i < |ids| ==> ids[i] in cases && cases[ids[i]].citizenId in citizens
    ensures Distinct(ids)
    ensures forall i, j :: 0 <= i < j < |ids| ==> cases[ids[i]].reportedAt >= cases[ids[j]].reportedAt
  {
    var time := ReportedAt(cases);
    var s := Where(KeysDescending(cases.Keys), id => Joined(cases, citizens, id) && keep(cases[id]));
    assert Timed(s, time) by {
      forall i | 0 <= i < |s| ensures s[i] in time {
        assert s[i] in s;
      }
    }
    DescendingDistinct(s);
    SortNewestFirstCorrect(s, time);
    var ids := SortNewestFirst(s, time);
    assert forall i :: 0 <= i < |ids| ==> ids[i] in cases && cases[ids[i]].citizenId in citizens by {
      forall i | 0 <= i < |ids| ensures ids[i] in cases && cases[ids[i]].citizenId in citizens {
        assert ids[i] in ids;
      }
    }
    ids
  }

  /** Definition: the joined cases `ids` as the rows of a filter, one per key
      in order. */
  function Briefs(ids: seq<int>, cases: map<int, Case>, citizens: map<int, CitizenOps.Citizen>): (r: seq<CaseBrief>)
    requires forall i :: 0 <= i < |ids| ==> ids[i] in cases && cases[ids[i]].citizenId in citizens
    ensures |r| == |ids|
    ensures forall i :: 0 <= i < |r| ==> r[i] == BriefOf(ids[i], cases[ids[i]], citizens)
  {
    seq(|ids|, i requires 0 <= i < |ids| => BriefOf(ids[i], cases[ids[i]], citizens))
  }

  /** A filter select: the joined cases that satisfy `keep`, each once, newest first. */
  function Filter(cases: map<int, Case>, citizens: map<int, CitizenOps.Citizen>, keep: Case -> bool): (r: seq<CaseBrief>)
    ensures forall i :: 0 <= i < |r| ==>
      && Joined(cases, citizens, r[i].caseId) && keep(cases[r[i].caseId])
      && r[i] == BriefOf(r[i].caseId, cases[r[i].caseId], citizens)
    ensures forall i, j :: 0 <= i < j < |r| ==> r[i].caseId != r[j].caseId && r[i].reportedAt >= r[j].reportedAt
  {
    var ids := FilteredIds(cases, citizens, keep);
    Briefs(ids, cases, citizens)
  }

  /** Every joined case that satisfies `keep` appears in the filter. */
  lemma FilterComplete(cases: map<int, Case>, citizens: map<int, CitizenOps.Citizen>, keep: Case -> bool, caseId: int)
    requires Joined(cases, citizens, caseId) && keep(cases[caseId])
    ensures exists i :: 0 <= i < |Filter(cases, citizens, keep)| && Filter(cases, citizens, keep)[i].caseId == caseId
  {
    var ids := FilteredIds(cases, citizens, keep);
    assert caseId in ids;
    var i :| 0 <= i < |ids| && ids[i] == caseId;
    var r := Briefs(ids, cases, citizens);
    assert r == Filter(cases, citizens, keep);
    assert r[i] == BriefOf(ids[i], cases[ids[i]], citizens);
  }

  predicate HasStatus(c: Case, status: string)
  {
    c.status == status
  }

  /** `ILIKE '%' || location || '%'` on the location column. */
  predicate LocationMatches(c: Case, location: string)
  {
    ContainsIgnoringCase(c.location, location)
  }

  /** `ILIKE '%' || crime_type || '%'` on the crime-type column. */
  predicate CrimeTypeMatches(c: Case, crimeType: string)
  {
    ContainsIgnoringCase(c.crimeType, crimeType)
  }

  /** `... WHERE c.status = %s ORDER BY c.reported_at DESC`. */
  function GetCasesByStatus(cases: map<int, Case>, citizens: map<int, CitizenOps.Citizen>, status: string): (r: seq<CaseBrief>)
    ensures forall i :: 0 <= i < |r| ==>
      && Joined(cases, citizens, r[i].caseId) && cases[r[i].caseId].status == status
      && r[i] == BriefOf(r[i].caseId, cases[r[i].caseId], citizens)
    ensures forall id :: Joined(cases, citizens, id) && cases[id].status == status ==>
      exists i :: 0 <= i < |r| && r[i].caseId == id
    ensures forall i, j :: 0 <= i < j < |r| ==> r[i].caseId != r[j].caseId && r[i].reportedAt >= r[j].reportedAt
  {
    var r := Filter(cases, citizens, c => HasStatus(c, status));
    forall id | Joined(cases, citizens, id) && cases[id].status == status
      ensures exists i :: 0 <= i < |r| && r[i].caseId == id
    {
      FilterComplete(cases, citizens, c => HasStatus(c, status), id);
    }
    r
  }

  /** `... WHERE c.location ILIKE %s ORDER BY c.reported_at DESC`. */
  function GetCasesByLocation(cases: map<int, Case>, citizens: map<int, CitizenOps.Citizen>, location: string): (r: seq<CaseBrief>)
    ensures forall i :: 0 <= i < |r| ==>
      && Joined(cases, citizens, r[i].caseId) && ContainsIgnoringCase(cases[r[i].caseId].location, location)
      && r[i] == BriefOf(r[i].caseId, cases[r[i].caseId], citizens)
    ensures forall id :: Joined(cases, citizens, id) && ContainsIgnoringCase(cases[id].location, location) ==>
      exists i :: 0 <= i < |r| && r[i].caseId == id
    ensures forall i, j :: 0 <= i < j < |r| ==> r[i].caseId != r[j].caseId && r[i].reportedAt >= r[j].reportedAt
  {
    var r := Filter(cases, citizens, c => LocationMatches(c, location));
    forall id | Joined(cases, citizens, id) && ContainsIgnoringCase(cases[id].location, location)
      ensures exists i :: 0 <= i < |r| && r[i].caseId == id
    {
      FilterComplete(cases, citizens, c => LocationMatches(c, location), id);
    }
    r
  }

  /** `... WHERE c.crime_type ILIKE %s ORDER BY c.reported_at DESC`. */
  function GetCasesByCrimeType(cases: map<int, Case>, citizens: map<int, CitizenOps.Citizen>, crimeType: string): (r: seq<CaseBrief>)
    ensures forall i :: 0 <= i < |r| ==>
      && Joined(cases, citizens, r[i].caseId) && ContainsIgnoringCase(cases[r[i].caseId].crimeType, crimeType)
      && r[i] == BriefOf(r[i].caseId, cases[r[i].caseId], citizens)
    ensures forall id :: Joined(cases, citizens, id) && ContainsIgnoringCase(cases[id].crimeType, crimeType) ==>
      exists i :: 0 <= i < |r| && r[i].caseId == id
    ensures forall i, j :: 0 <= i < j < |r| ==> r[i].caseId != r[j].caseId && r[i].reportedAt >= r[j].reportedAt
  {
    var r := Filter(cases, citizens, c => CrimeTypeMatches(c, crimeType));
    forall id | Joined(cases, citizens, id) && ContainsIgnoringCase(cases[id].crimeType, crimeType)
      ensures exists i :: 0 <= i < |r| && r[i].caseId == id
    {
      FilterComplete(cases, citizens, c => CrimeTypeMatches(c, crimeType), id);
    }
    r
  }

  /** A value in a row of the case listing, as the driver hands it over. */
  datatype Cell = IntCell(n: int) | TextCell(s: string) | TimeCell(t: int) | NullCell

  function OptionalText(s: Option<string>): Cell
  {
    match s
    case Some(t) => TextCell(t)
    case None => NullCell
  }

  /** A `get_all_cases` row as its eight columns. */
  function SummaryCells(s: CaseSummary): (row: seq<Cell>)
    ensures |row| == 8
  {
    [IntCell(s.caseId), TextCell(s.crimeType), TextCell(s.description), TextCell(s.location),
     TextCell(s.status), TimeCell(s.reportedAt), TextCell(s.citizenName), OptionalText(s.officerName)]
  }

  /** A filter row as its six columns. */
  function BriefCells(b: CaseBrief): (row: seq<Cell>)
    ensures |row| == 6
  {
    [IntCell(b.caseId), TextCell(b.crimeType), TextCell(b.location), TextCell(b.status),
     TimeCell(b.reportedAt), TextCell(b.citizenName)]
  }

  /** The six values one line of the case listing shows. */
  datatype CaseLine = CaseLine(caseId: Cell, crimeType: Cell, location: Cell, status: Cell, reported: Cell, citizen: Cell)

  /** `display_cases` picks the location, status, time and citizen from
      columns 3 to 6 of a row of eight or more columns, and from columns 2 to 5
      of a shorter one. */
  function DisplayColumns(row: seq<Cell>): CaseLine
    requires |row| >= 6
  {
    if |row| >= 8 then CaseLine(row[0], row[1], row[3], row[4], row[5], row[6])
    else CaseLine(row[0], row[1], row[2], row[3], row[4], row[5])
  }

  function LineOfSummary(s: CaseSummary): CaseLine
  {
    CaseLine(IntCell(s.caseId), TextCell(s.crimeType), TextCell(s.location), TextCell(s.status),
      TimeCell(s.reportedAt), TextCell(s.citizenName))
  }

  function LineOfBrief(b: CaseBrief): CaseLine
  {
    CaseLine(IntCell(b.caseId), TextCell(b.crimeType), TextCell(b.location), TextCell(b.status),
      TimeCell(b.reportedAt), TextCell(b.citizenName))
  }

  /** Both row shapes the listing is given show the same fields. */
  lemma DisplayShowsFields(s: CaseSummary, b: CaseBrief)
    ensures DisplayColumns(SummaryCells(s)) == LineOfSummary(s)
    ensures DisplayColumns(BriefCells(b)) == LineOfBrief(b)
  {
  }

  /** The list of lines `display_cases` prints, one per row in order. */
  method DisplayCases(rows: seq<seq<Cell>>) returns (lines: seq<CaseLine>)
    requires forall i :: 0 <= i < |rows| ==> |rows[i]| >= 6
    ensures |lines| == |rows|
    ensures forall i :: 0 <= i < |rows| ==> lines[i] == DisplayColumns(rows[i])
  {
    lines := [];
    for k := 0 to |rows|
      invariant |lines| == k
      invariant forall i :: 0 <= i < k ==> lines[i] == DisplayColumns(rows[i])
    {
      lines := lines + [DisplayColumns(rows[k])];
    }
  }

  /** The table after `UPDATE cases SET officer_id = %s WHERE case_id = %s`. */
  function WithOfficer(rows: map<int, Case>, caseId: int, officerId: int): (r: map<int, Case>)
    ensures r.Keys == rows.Keys
    ensures forall id :: id in rows && id != caseId ==> r[id] == rows[id]
    ensures caseId in rows ==> r[caseId] == rows[caseId].(officerId := Some(officerId))
  {
    if caseId in rows then rows[caseId := rows[caseId].(officerId := Some(officerId))] else rows
  }

  /** The table after `UPDATE cases SET status = %s WHERE case_id = %s`. */
  function WithStatus(rows: map<int, Case>, caseId: int, status: string): (r: map<int, Case>)
    ensures r.Keys == rows.Keys
    ensures forall id :: id in rows && id != caseId ==> r[id] == rows[id]
    ensures caseId in rows ==> r[caseId] == rows[caseId].(status := status)
  {
    if caseId in rows then rows[caseId := rows[caseId].(status := status)] else rows
  }

  /** After the assignment, the case's detail names the officer, while that
      officer exists and the citizen does. */
  lemma AssignedOfficerShows(rows: map<int, Case>, citizens: map<int, CitizenOps.Citizen>, officers: map<int, OfficerOps.Officer>, caseId: int, officerId: int)
    requires Joined(rows, citizens, caseId) && officerId in officers
    ensures GetCaseById(WithOfficer(rows, caseId, officerId), citizens, officers, caseId).Some?
    ensures GetCaseById(WithOfficer(rows, caseId, officerId), citizens, officers, caseId).value.officerName
      == Some(officers[officerId].fullName)
  {
    var after := WithOfficer(rows, caseId, officerId);
    assert after[caseId].officerId == Some(officerId);
  }

  /** After the status change, the case is found by the status filter. */
  lemma UpdatedStatusFound(rows: map<int, Case>, citizens: map<int, CitizenOps.Citizen>, caseId: int, status: string)
    requires Joined(rows, citizens, caseId)
    ensures var r := GetCasesByStatus(WithStatus(rows, caseId, status), citizens, status);
            exists i :: 0 <= i < |r| && r[i].caseId == caseId
  {
    var after := WithStatus(rows, caseId, status);
    var r := GetCasesByStatus(after, citizens, status);
    assert Joined(after, citizens, caseId) && after[caseId].status == status;
    assert exists i :: 0 <= i < |r| && r[i].caseId == caseId;
  }

  /** The `cases` table: its rows by key, the next value of its key sequence,
      and the status a new case starts with (the column default). */
  class CaseTable {
    var rows: map<int, Case>
    var nextId: int
    const defaultStatus: string

    ghost predicate Valid()
      reads this
    {
      nextId >= 1 && forall id :: id in rows ==> 1 <= id < nextId
    }

    constructor (defaultStatus: string)
      ensures Valid() && rows == map[] && nextId == 1 && this.defaultStatus == defaultStatus
    {
      rows, nextId := map[], 1;
      this.defaultStatus := defaultStatus;
    }

    /** `INSERT INTO cases (citizen_id, officer_id, crime_type, description,
        location) VALUES (...) RETURNING case_id`; the store fills in the
        default status and `now` as the report time. `fault` stands for a
        missing connection or a statement that raised (a citizen or officer
        key the store rejects, say), after which the transaction is rolled back. */
    method AddCase(citizenId: int, crimeType: string, description: string, location: string, officerId: Option<int>, now: int, fault: bool)
      returns (caseId: Option<int>)
      requires Valid()
      modifies this
      ensures Valid()
      ensures caseId.Some? <==> !fault
      ensures caseId.Some? ==>
        && caseId.value == old(nextId) && caseId.value !in old(rows)
        && rows == old(rows)[caseId.value := Case(citizenId, officerId, crimeType, description, location, defaultStatus, now)]
        && nextId == old(nextId) + 1
      ensures caseId.None? ==> rows == old(rows) && nextId == old(nextId)
    {
      if fault {
        return None;
      }
      caseId := Some(nextId);
      rows := rows[nextId := Case(citizenId, officerId, crimeType, description, location, defaultStatus, now)];
      nextId := nextId + 1;
    }

    /** `assign_officer_to_case`: `True` whenever the statement ran, whether
        or not a case matched. */
    method AssignOfficer(caseId: int, officerId: int, fault: bool) returns (ok: bool)
      requires Valid()
      modifies this
      ensures Valid() && nextId == old(nextId)
      ensures ok <==> !fault
      ensures rows == if ok then WithOfficer(old(rows), caseId, officerId) else old(rows)
    {
      if fault {
        return false;
      }
      rows := WithOfficer(rows, caseId, officerId);
      ok := true;
    }

    /** `update_case_status`: any status text is written; `True` whenever the
        statement ran, whether or not a case matched. */
    method UpdateCaseStatus(caseId: int, status: string, fault: bool) returns (ok: bool)
      requires Valid()
      modifies this
      ensures Valid() && nextId == old(nextId)
      ensures ok <==> !fault
      ensures rows == if ok then WithStatus(old(rows), caseId, status) else old(rows)
    {
      if fault {
        return false;
      }
      rows := WithStatus(rows, caseId, status);
      ok := true;
    }

    /** `DELETE FROM cases WHERE case_id = %s`; `True` whenever the statement
        ran. The case's updates are not touched. */
    method DeleteCase(caseId: int, fault: bool) returns (ok: bool)
      requires Valid()
      modifies this
      ensures Valid() && nextId == old(nextId)
      ensures ok <==> !fault
      ensures rows == if ok then old(rows) - {caseId} else old(rows)
    {
      if fault {
        return false;
      }
      rows := rows - {caseId};
      ok := true;
    }
  }
}
