/** The `officers` table and the operations on it: insert, select all,
    select by key, the partial update built from the truthy arguments (which
    never names the badge number), delete, and the station cell of the
    officer listing. */
module OfficerOps {
  import opened Sql
  import opened Ordering

  /** One row of `officers`; its key `officer_id` is the key of the table's map. */
  datatype Officer = Officer(fullName: string, badgeNumber: string, rank: string, phoneNumber: string, station: Option<string>)

  /** A row as `SELECT *` returns it: the key, then the columns. */
  datatype OfficerRow = OfficerRow(officerId: int, officer: Officer)

  /** The optional arguments of `update_officer`; there is none for the badge number. */
  datatype OfficerChanges = OfficerChanges(fullName: Option<string>, rank: Option<string>, phoneNumber: Option<string>, station: Option<string>)

  /** The columns `update_officer` can set, in the order it considers them. */
  datatype OfficerColumn = FullNameColumn | RankColumn | PhoneNumberColumn | StationColumn

  const AllColumns: seq<OfficerColumn> := [FullNameColumn, RankColumn, PhoneNumberColumn, StationColumn]

  /** The argument that would be written to `column`. */
  function Argument(changes: OfficerChanges, column: OfficerColumn): Option<string>
  {
    match column
    case FullNameColumn => changes.fullName
    case RankColumn => changes.rank
    case PhoneNumberColumn => changes.phoneNumber
    case StationColumn => changes.station
  }

  /** The text of the argument for `column` (empty when it is `None`). */
  function ArgumentText(changes: OfficerChanges, column: OfficerColumn): string
  {
    match Argument(changes, column)
    case Some(s) => s
    case None => ""
  }

  /** Whether `update_officer` finds anything to write. */
  predicate HasChange(changes: OfficerChanges)
  {
    Truthy(changes.fullName) || Truthy(changes.rank) || Truthy(changes.phoneNumber) || Truthy(changes.station)
  }

  /** The row the update is meant to leave: every truthy argument replaces its
      column, every other column, the badge number among them, keeps its
      stored value. */
  function Patched(row: Officer, changes: OfficerChanges): Officer
  {
    Officer(
      if Truthy(changes.fullName) then changes.fullName.value else row.fullName,
      row.badgeNumber,
      if Truthy(changes.rank) then changes.rank.value else row.rank,
      if Truthy(changes.phoneNumber) then changes.phoneNumber.value else row.phoneNumber,
      if Truthy(changes.station) then changes.station else row.station)
  }

  /** The columns among `columns` whose argument is truthy, in order. */
  function Chosen(columns: seq<OfficerColumn>, changes: OfficerChanges): seq<OfficerColumn>
  {
    if columns == [] then []
    else if Truthy(Argument(changes, columns[0])) then [columns[0]] + Chosen(columns[1..], changes)
    else Chosen(columns[1..], changes)
  }

  /** A column is chosen exactly when it is considered and its argument is truthy. */
  lemma {:induction false} ChosenMembers(columns: seq<OfficerColumn>, changes: OfficerChanges, c: OfficerColumn)
    ensures c in Chosen(columns, changes) <==> c in columns && Truthy(Argument(changes, c))
  {
    if columns != [] {
      ChosenMembers(columns[1..], changes, c);
      assert columns == [columns[0]] + columns[1..];
    }
  }

  /** Definition: the values bound to the `SET` placeholders, one per chosen
      column. */
  function ChosenValues(columns: seq<OfficerColumn>, changes: OfficerChanges): (r: seq<Param>)
    ensures |r| == |columns|
    ensures forall i :: 0 <= i < |r| ==> r[i] == TextParam(ArgumentText(changes, columns[i]))
  {
    seq(|columns|, i requires 0 <= i < |columns| => TextParam(ArgumentText(changes, columns[i])))
  }

  /** `values` binds, placeholder by placeholder, the text of the argument
      of the column in the same place of `updates`. */
  predicate BindsArguments(updates: seq<OfficerColumn>, values: seq<Param>, changes: OfficerChanges)
  {
    |values| == |updates| && forall i :: 0 <= i < |values| ==> values[i] == TextParam(ArgumentText(changes, updates[i]))
  }

  lemma BindsAppend(updates: seq<OfficerColumn>, values: seq<Param>, changes: OfficerChanges, column: OfficerColumn)
    requires BindsArguments(updates, values, changes)
    ensures BindsArguments(updates + [column], values + [TextParam(ArgumentText(changes, column))], changes)
  {
  }

  /** The `SET col = %s, ...` list and its parameters, built by appending as
      `update_officer` does; `values` does not yet hold the key. */
  method BuildUpdate(changes: OfficerChanges) returns (updates: seq<OfficerColumn>, values: seq<Param>)
    ensures updates == Chosen(AllColumns, changes)
    ensures BindsArguments(updates, values, changes)
    ensures updates == [] <==> !HasChange(changes)
  {
    updates, values := [], [];
    if Truthy(changes.fullName) {
      BindsAppend(updates, values, changes, FullNameColumn);
      updates := updates + [FullNameColumn];
      values := values + [TextParam(changes.fullName.value)];
    }
    if Truthy(changes.rank) {
      BindsAppend(updates, values, changes, RankColumn);
      updates := updates + [RankColumn];
      values := values + [TextParam(changes.rank.value)];
    }
    if Truthy(changes.phoneNumber) {
      BindsAppend(updates, values, changes, PhoneNumberColumn);
      updates := updates + [PhoneNumberColumn];
      values := values + [TextParam(changes.phoneNumber.value)];
    }
    if Truthy(changes.station) {
      BindsAppend(updates, values, changes, StationColumn);
      updates := updates + [StationColumn];
      values := values + [TextParam(changes.station.value)];
    }
    ChosenAllColumns(changes);
    assert updates == Pick(changes, FullNameColumn) + Pick(changes, RankColumn) + Pick(changes, PhoneNumberColumn) + Pick(changes, StationColumn);
  }

  function SetColumn(row: Officer, column: OfficerColumn, value: string): Officer
  {
    match column
    case FullNameColumn => row.(fullName := value)
    case RankColumn => row.(rank := value)
    case PhoneNumberColumn => row.(phoneNumber := value)
    case StationColumn => row.(station := Some(value))
  }

  /** The `SET` list applied to one row, left to right. */
  function Assign(row: Officer, updates: seq<OfficerColumn>, values: seq<Param>): Officer
    requires |updates| == |values| && forall i :: 0 <= i < |values| ==> values[i].TextParam?
    decreases |updates|
  {
    if updates == [] then row
    else Assign(SetColumn(row, updates[0], values[0].text), updates[1..], values[1..])
  }

  /** A statement `UPDATE officers SET ... WHERE officer_id = %s` is well formed
      when it binds one text per `SET` column and then the key. */
  predicate WellFormedUpdate(updates: seq<OfficerColumn>, values: seq<Param>)
  {
    && |values| == |updates| + 1
    && (forall i :: 0 <= i < |updates| ==> values[i].TextParam?)
    && values[|updates|].KeyParam?
  }

  /** What the store does with the statement: the row whose key is the last
      parameter gets the `SET` list, and no other row changes. */
  function ExecuteUpdate(rows: map<int, Officer>, updates: seq<OfficerColumn>, values: seq<Param>): (r: map<int, Officer>)
    requires WellFormedUpdate(updates, values)
    ensures r.Keys == rows.Keys
    ensures forall id :: id in rows && id != values[|updates|].key ==> r[id] == rows[id]
  {
    var key := values[|updates|].key;
    if key in rows then rows[key := Assign(rows[key], updates, values[..|updates|])] else rows
  }

  /** No `SET` list `update_officer` can build names the badge number. */
  lemma {:induction false} AssignKeepsBadge(row: Officer, updates: seq<OfficerColumn>, values: seq<Param>)
    requires |updates| == |values| && forall i :: 0 <= i < |values| ==> values[i].TextParam?
    ensures Assign(row, updates, values).badgeNumber == row.badgeNumber
    decreases |updates|
  {
    if updates != [] {
      AssignKeepsBadge(SetColumn(row, updates[0], values[0].text), updates[1..], values[1..]);
    }
  }

  /** Whatever update statement runs, every officer keeps their badge number. */
  lemma ExecuteKeepsBadges(rows: map<int, Officer>, updates: seq<OfficerColumn>, values: seq<Param>)
    requires WellFormedUpdate(updates, values)
    ensures forall id :: id in rows ==> ExecuteUpdate(rows, updates, values)[id].badgeNumber == rows[id].badgeNumber
  {
    var key := values[|updates|].key;
    if key in rows {
      AssignKeepsBadge(rows[key], updates, values[..|updates|]);
    }
  }

  /** Running the statement `update_officer` builds rewrites exactly the
      truthy columns of the one row whose key is `officerId`. */
  lemma UpdateStatementEffect(rows: map<int, Officer>, officerId: int, changes: OfficerChanges)
    ensures var updates := Chosen(AllColumns, changes);
            var values := ChosenValues(updates, changes) + [KeyParam(officerId)];
            && WellFormedUpdate(updates, values)
            && values[..|updates|] == ChosenValues(updates, changes)
            && ExecuteUpdate(rows, updates, values)
               == if officerId in rows then rows[officerId := Patched(rows[officerId], changes)] else rows
  {
    var updates := Chosen(AllColumns, changes);
    var values := ChosenValues(updates, changes) + [KeyParam(officerId)];
    assert values[..|updates|] == ChosenValues(updates, changes);
    if officerId in rows {
      AssignChosen(rows[officerId], changes);
    }
  }

  /** One column considered by `update_officer`: written when its argument is truthy. */
  function Step(row: Officer, column: OfficerColumn, changes: OfficerChanges): Officer
  {
    if Truthy(Argument(changes, column)) then SetColumn(row, column, ArgumentText(changes, column)) else row
  }

  /** The columns considered one after another. */
  function Steps(row: Officer, columns: seq<OfficerColumn>, changes: OfficerChanges): Officer
    decreases |columns|
  {
    if columns == [] then row else Steps(Step(row, columns[0], changes), columns[1..], changes)
  }

  /** Assigning the chosen columns in order is considering every column in order. */
  lemma {:induction false} AssignIsSteps(row: Officer, columns: seq<OfficerColumn>, changes: OfficerChanges)
    ensures Assign(row, Chosen(columns, changes), ChosenValues(Chosen(columns, changes), changes)) == Steps(row, columns, changes)
    decreases |columns|
  {
    if columns != [] {
      AssignSuffix(row, columns, changes);
      AssignIsSteps(Step(row, columns[0], changes), columns[1..], changes);
    }
  }

  /** Considering the four columns in order gives the patch. */
  lemma AssignChosen(row: Officer, changes: OfficerChanges)
    ensures Assign(row, Chosen(AllColumns, changes), ChosenValues(Chosen(AllColumns, changes), changes)) == Patched(row, changes)
  {
    var columns := AllColumns;
    AssignIsSteps(row, columns, changes);
    assert columns[1..][1..][1..][1..] == [];
    var r1 := Step(row, FullNameColumn, changes);
    var r2 := Step(r1, RankColumn, changes);
    var r3 := Step(r2, PhoneNumberColumn, changes);
    var r4 := Step(r3, StationColumn, changes);
    assert Steps(row, columns, changes) == r4;
  }

  /** The column alone when its argument is truthy, otherwise nothing. */
  function Pick(changes: OfficerChanges, column: OfficerColumn): seq<OfficerColumn>
  {
    if Truthy(Argument(changes, column)) then [column] else []
  }

  /** `Chosen` over a column followed by more columns. */
  lemma ChosenCons(c: OfficerColumn, rest: seq<OfficerColumn>, changes: OfficerChanges)
    ensures Chosen([c] + rest, changes) == Pick(changes, c) + Chosen(rest, changes)
  {
    assert ([c] + rest)[1..] == rest;
  }

  /** `Chosen` over the four columns, unrolled. */
  lemma ChosenAllColumns(changes: OfficerChanges)
    ensures Chosen(AllColumns, changes) == Pick(changes, FullNameColumn) + Pick(changes, RankColumn) + Pick(changes, PhoneNumberColumn) + Pick(changes, StationColumn)
  {
    var s3: seq<OfficerColumn> := [StationColumn];
    var s2: seq<OfficerColumn> := [PhoneNumberColumn, StationColumn];
    var s1: seq<OfficerColumn> := [RankColumn, PhoneNumberColumn, StationColumn];
    assert Chosen(s3, changes) == Pick(changes, StationColumn) by {
      ChosenCons(StationColumn, [], changes);
      assert s3 == [StationColumn] + [];
    }
    assert Chosen(s2, changes) == Pick(changes, PhoneNumberColumn) + Pick(changes, StationColumn) by {
      ChosenCons(PhoneNumberColumn, s3, changes);
      assert s2 == [PhoneNumberColumn] + s3;
    }
    assert Chosen(s1, changes) == Pick(changes, RankColumn) + (Pick(changes, PhoneNumberColumn) + Pick(changes, StationColumn)) by {
      ChosenCons(RankColumn, s2, changes);
      assert s1 == [RankColumn] + s2;
    }
    assert Chosen(AllColumns, changes) == Pick(changes, FullNameColumn) + (Pick(changes, RankColumn) + (Pick(changes, PhoneNumberColumn) + Pick(changes, StationColumn))) by {
      ChosenCons(FullNameColumn, s1, changes);
      assert AllColumns == [FullNameColumn] + s1;
    }
    assert Pick(changes, FullNameColumn) + (Pick(changes, RankColumn) + (Pick(changes, PhoneNumberColumn) + Pick(changes, StationColumn))) == Pick(changes, FullNameColumn) + Pick(changes, RankColumn) + Pick(changes, PhoneNumberColumn) + Pick(changes, StationColumn);
  }

  /** One step of the left-to-right assignment over a suffix of the columns. */
  lemma AssignSuffix(row: Officer, columns: seq<OfficerColumn>, changes: OfficerChanges)
    requires columns != []
    ensures var chosen := Chosen(columns, changes);
            var rest := Chosen(columns[1..], changes);
            var c := columns[0];
            var next := if Truthy(Argument(changes, c)) then SetColumn(row, c, ArgumentText(changes, c)) else row;
            Assign(row, chosen, ChosenValues(chosen, changes)) == Assign(next, rest, ChosenValues(rest, changes))
  {
    var chosen := Chosen(columns, changes);
    var rest := Chosen(columns[1..], changes);
    if Truthy(Argument(changes, columns[0])) {
      assert chosen[1..] == rest;
      assert ChosenValues(chosen, changes)[1..] == ChosenValues(rest, changes);
    }
  }

  /** `SELECT * FROM officers ORDER BY officer_id`. */
  function GetAllOfficers(rows: map<int, Officer>): (r: seq<OfficerRow>)
    ensures |r| == |rows|
    ensures forall i :: 0 <= i < |r| ==> r[i].officerId in rows && r[i].officer == rows[r[i].officerId]
    ensures forall i, j :: 0 <= i < j < |r| ==> r[i].officerId < r[j].officerId
  {
    var ids := KeysAscending(rows.Keys);
    assert forall i :: 0 <= i < |ids| ==> ids[i] in rows by {
      forall i | 0 <= i < |ids| ensures ids[i] in rows {
        assert ids[i] in ids;
      }
    }
    seq(|ids|, i requires 0 <= i < |ids| => OfficerRow(ids[i], rows[ids[i]]))
  }

  /** Every stored officer appears in `get_all_officers`. */
  lemma GetAllOfficersComplete(rows: map<int, Officer>, officerId: int)
    requires officerId in rows
    ensures exists i :: 0 <= i < |GetAllOfficers(rows)| && GetAllOfficers(rows)[i].officerId == officerId
  {
    var ids := KeysAscending(rows.Keys);
    var i :| 0 <= i < |ids| && ids[i] == officerId;
    assert GetAllOfficers(rows)[i].officerId == officerId;
  }

  /** `SELECT * FROM officers WHERE officer_id = %s`: the row, or `None`. */
  function GetOfficerById(rows: map<int, Officer>, officerId: int): (r: Option<Officer>)
    ensures r.Some? <==> officerId in rows
    ensures r.Some? ==> r.value == rows[officerId]
  {
    if officerId in rows then Some(rows[officerId]) else None
  }

  /** The station cell of the officer listing: the station, or "N/A" when it
      is missing or empty; the cell is never blank. */
  function StationCell(station: Option<string>): (r: string)
    ensures r != ""
    ensures Truthy(station) ==> r == station.value
    ensures !Truthy(station) ==> r == "N/A"
  {
    if Truthy(station) then station.value else "N/A"
  }

  /** The `officers` table: its rows by key and the next value of its key
      sequence. */
  class OfficerTable {
    var rows: map<int, Officer>
    var nextId: int

    ghost predicate Valid()
      reads this
    {
      nextId >= 1 && forall id :: id in rows ==> 1 <= id < nextId
    }

    constructor ()
      ensures Valid() && rows == map[] && nextId == 1
    {
      rows, nextId := map[], 1;
    }

    /** `INSERT INTO officers (...) VALUES (...) RETURNING officer_id`;
        `fault` stands for a missing connection or a statement that raised
        (a duplicate badge number, say), after which the transaction is
        rolled back. */
    method AddOfficer(fullName: string, badgeNumber: string, rank: string, phoneNumber: string, station: Option<string>, fault: bool)
      returns (officerId: Option<int>)
      requires Valid()
      modifies this
      ensures Valid()
      ensures officerId.Some? <==> !fault
      ensures officerId.Some? ==>
        && officerId.value == old(nextId) && officerId.value !in old(rows)
        && rows == old(rows)[officerId.value := Officer(fullName, badgeNumber, rank, phoneNumber, station)]
        && nextId == old(nextId) + 1
      ensures officerId.None? ==> rows == old(rows) && nextId == old(nextId)
    {
      if fault {
        return None;
      }
      officerId := Some(nextId);
      rows := rows[nextId := Officer(fullName, badgeNumber, rank, phoneNumber, station)];
      nextId := nextId + 1;
    }

    /** `update_officer`: writes the truthy fields of `changes` to the row
        `officerId`; `False` without touching the table when there is none,
        `True` whenever the statement ran, whether or not a row matched. */
    method UpdateOfficer(officerId: int, changes: OfficerChanges, fault: bool) returns (ok: bool)
      requires Valid()
      modifies this
      ensures Valid() && nextId == old(nextId)
      ensures ok <==> !fault && HasChange(changes)
      ensures ok ==> rows == if officerId in old(rows) then old(rows)[officerId := Patched(old(rows)[officerId], changes)] else old(rows)
      ensures !ok ==> rows == old(rows)
      ensures rows.Keys == old(rows).Keys
      ensures forall id :: id in rows ==> rows[id].badgeNumber == old(rows)[id].badgeNumber
    {
      var updates, values := BuildUpdate(changes);
      if updates == [] {
        return false;
      }
      values := values + [KeyParam(officerId)];
      if fault {
        return false;
      }
      UpdateStatementEffect(rows, officerId, changes);
      assert values == ChosenValues(updates, changes) + [KeyParam(officerId)];
      ExecuteKeepsBadges(rows, updates, values);
      rows := ExecuteUpdate(rows, updates, values);
      ok := true;
    }

    /** `DELETE FROM officers WHERE officer_id = %s`; `True` whenever the
        statement ran. */
    method DeleteOfficer(officerId: int, fault: bool) returns (ok: bool)
      requires Valid()
      modifies this
      ensures Valid() && nextId == old(nextId)
      ensures ok <==> !fault
      ensures rows == if ok then old(rows) - {officerId} else old(rows)
    {
      if fault {
        return false;
      }
      rows := rows - {officerId};
      ok := true;
    }
  }
}
