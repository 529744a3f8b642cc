/** The `citizens` table and the operations on it: insert, select all,
    select by key, the partial update built from the truthy arguments, and
    delete. */
module CitizenOps {
  import opened Sql
  import opened Ordering

  /** One row of `citizens`; its key `citizen_id` is the key of the table's map. */
  datatype Citizen = Citizen(fullName: string, phoneNumber: string, email: Option<string>, address: Option<string>)

  /** A row as `SELECT *` returns it: the key, then the columns. */
  datatype CitizenRow = CitizenRow(citizenId: int, citizen: Citizen)

  /** The optional arguments of `update_citizen`. */
  datatype CitizenChanges = CitizenChanges(fullName: Option<string>, phoneNumber: Option<string>, email: Option<string>, address: Option<string>)

  /** The columns `update_citizen` can set, in the order it considers them. */
  datatype CitizenColumn = FullNameColumn | PhoneNumberColumn | EmailColumn | AddressColumn

  const AllColumns: seq<CitizenColumn> := [FullNameColumn, PhoneNumberColumn, EmailColumn, AddressColumn]

  /** The argument that would be written to `column`. */
  function Argument(changes: CitizenChanges, column: CitizenColumn): Option<string>
  {
    match column
    case FullNameColumn => changes.fullName
    case PhoneNumberColumn => changes.phoneNumber
    case EmailColumn => changes.email
    case AddressColumn => changes.address
  }

  /** The text of the argument for `column` (empty when it is `None`). */
  function ArgumentText(changes: CitizenChanges, column: CitizenColumn): string
  {
    match Argument(changes, column)
    case Some(s) => s
    case None => ""
  }

  /** Whether `update_citizen` finds anything to write. */
  predicate HasChange(changes: CitizenChanges)
  {
    Truthy(changes.fullName) || Truthy(changes.phoneNumber) || Truthy(changes.email) || Truthy(changes.address)
  }

  /** The row the update is meant to leave: every truthy argument replaces its
      column, every other column keeps its stored value. */
  function Patched(row: Citizen, changes: CitizenChanges): Citizen
  {
    Citizen(
      if Truthy(changes.fullName) then changes.fullName.value else row.fullName,
      if Truthy(changes.phoneNumber) then changes.phoneNumber.value else row.phoneNumber,
      if Truthy(changes.email) then changes.email else row.email,
      if Truthy(changes.address) then changes.address else row.address)
  }

  /** The columns among `columns` whose argument is truthy, in order. */
  function Chosen(columns: seq<CitizenColumn>, changes: CitizenChanges): seq<CitizenColumn>
  {
    if columns == [] then []
    else if Truthy(Argument(changes, columns[0])) then [columns[0]] + Chosen(columns[1..], changes)
    else Chosen(columns[1..], changes)
  }

  /** A column is chosen exactly when it is considered and its argument is truthy. */
  lemma {:induction false} ChosenMembers(columns: seq<CitizenColumn>, changes: CitizenChanges, c: CitizenColumn)
    ensures c in Chosen(columns, changes) <==> c in columns && Truthy(Argument(changes, c))
  {
    if columns != [] {
      ChosenMembers(columns[1..], changes, c);
      assert columns == [columns[0]] + columns[1..];
    }
  }

  /** Definition: the values bound to the `SET` placeholders, one per chosen
      column. */
  function ChosenValues(columns: seq<CitizenColumn>, changes: CitizenChanges): (r: seq<Param>)
    ensures |r| == |columns|
    ensures forall i :: 0 <= i < |r| ==> r[i] == TextParam(ArgumentText(changes, columns[i]))
  {
    seq(|columns|, i requires 0 <= i < |columns| => TextParam(ArgumentText(changes, columns[i])))
  }

  /** `values` binds, placeholder by placeholder, the text of the argument
      of the column in the same place of `updates`. */
  predicate BindsArguments(updates: seq<CitizenColumn>, values: seq<Param>, changes: CitizenChanges)
  {
    |values| == |updates| && forall i :: 0 <= i < |values| ==> values[i] == TextParam(ArgumentText(changes, updates[i]))
  }

  lemma BindsAppend(updates: seq<CitizenColumn>, values: seq<Param>, changes: CitizenChanges, column: CitizenColumn)
    requires BindsArguments(updates, values, changes)
    ensures BindsArguments(updates + [column], values + [TextParam(ArgumentText(changes, column))], changes)
  {
  }

  /** The `SET col = %s, ...` list and its parameters, built by appending as
      `update_citizen` does; `values` does not yet hold the key. */
  method BuildUpdate(changes: CitizenChanges) returns (updates: seq<CitizenColumn>, values: seq<Param>)
    ensures updates == Chosen(AllColumns, changes)
    ensures BindsArguments(updates, values, changes)
    ensures updates == [] <==> !HasChange(changes)
  {
    updates, values := [], [];
    if Truthy(changes.fullName) {
      BindsAppend(updates, values, changes, FullNameColumn);
      updates := updates + [FullNameColumn];
      values := values + [TextParam(changes.fullName.value)];
    }
    if Truthy(changes.phoneNumber) {
      BindsAppend(updates, values, changes, PhoneNumberColumn);
      updates := updates + [PhoneNumberColumn];
      values := values + [TextParam(changes.phoneNumber.value)];
    }
    if Truthy(changes.email) {
      BindsAppend(updates, values, changes, EmailColumn);
      updates := updates + [EmailColumn];
      values := values + [TextParam(changes.email.value)];
    }
    if Truthy(changes.address) {
      BindsAppend(updates, values, changes, AddressColumn);
      updates := updates + [AddressColumn];
      values := values + [TextParam(changes.address.value)];
    }
    ChosenAllColumns(changes);
    assert updates == Pick(changes, FullNameColumn) + Pick(changes, PhoneNumberColumn) + Pick(changes, EmailColumn) + Pick(changes, AddressColumn);
  }

  function SetColumn(row: Citizen, column: CitizenColumn, value: string): Citizen
  {
    match column
    case FullNameColumn => row.(fullName := value)
    case PhoneNumberColumn => row.(phoneNumber := value)
    case EmailColumn => row.(email := Some(value))
    case AddressColumn => row.(address := Some(value))
  }

  /** The `SET` list applied to one row, left to right. */
  function Assign(row: Citizen, updates: seq<CitizenColumn>, values: seq<Param>): Citizen
    requires |updates| == |values| && forall i :: 0 <= i < |values| ==> values[i].TextParam?
    decreases |updates|
  {
    if updates == [] then row
    else Assign(SetColumn(row, updates[0], values[0].text), updates[1..], values[1..])
  }

  /** A statement `UPDATE citizens SET ... WHERE citizen_id = %s` is well formed
      when it binds one text per `SET` column and then the key. */
  predicate WellFormedUpdate(updates: seq<CitizenColumn>, values: seq<Param>)
  {
    && |values| == |updates| + 1
    && (forall i :: 0 <= i < |updates| ==> values[i].TextParam?)
    && values[|updates|].KeyParam?
  }

  /** What the store does with the statement: the row whose key is the last
      parameter gets the `SET` list, and no other row changes. */
  function ExecuteUpdate(rows: map<int, Citizen>, updates: seq<CitizenColumn>, values: seq<Param>): (r: map<int, Citizen>)
    requires WellFormedUpdate(updates, values)
    ensures r.Keys == rows.Keys
    ensures forall id :: id in rows && id != values[|updates|].key ==> r[id] == rows[id]
  {
    var key := values[|updates|].key;
    if key in rows then rows[key := Assign(rows[key], updates, values[..|updates|])] else rows
  }

  /** Running the statement `update_citizen` builds rewrites exactly the
      truthy columns of the one row whose key is `citizenId`. */
  lemma UpdateStatementEffect(rows: map<int, Citizen>, citizenId: int, changes: CitizenChanges)
    ensures var updates := Chosen(AllColumns, changes);
            var values := ChosenValues(updates, changes) + [KeyParam(citizenId)];
            && WellFormedUpdate(updates, values)
            && values[..|updates|] == ChosenValues(updates, changes)
            && ExecuteUpdate(rows, updates, values)
               == if citizenId in rows then rows[citizenId := Patched(rows[citizenId], changes)] else rows
  {
    var updates := Chosen(AllColumns, changes);
    var values := ChosenValues(updates, changes) + [KeyParam(citizenId)];
    assert values[..|updates|] == ChosenValues(updates, changes);
    if citizenId in rows {
      AssignChosen(rows[citizenId], changes);
    }
  }

  /** One column considered by `update_citizen`: written when its argument is truthy. */
  function Step(row: Citizen, column: CitizenColumn, changes: CitizenChanges): Citizen
  {
    if Truthy(Argument(changes, column)) then SetColumn(row, column, ArgumentText(changes, column)) else row
  }

  /** The columns considered one after another. */
  function Steps(row: Citizen, columns: seq<CitizenColumn>, changes: CitizenChanges): Citizen
    decreases |columns|
  {
    if columns == [] then row else Steps(Step(row, columns[0], changes), columns[1..], changes)
  }

  /** Assigning the chosen columns in order is considering every column in order. */
  lemma {:induction false} AssignIsSteps(row: Citizen, columns: seq<CitizenColumn>, changes: CitizenChanges)
    ensures Assign(row, Chosen(columns, changes), ChosenValues(Chosen(columns, changes), changes)) == Steps(row, columns, changes)
    decreases |columns|
  {
    if columns != [] {
      AssignSuffix(row, columns, changes);
      AssignIsSteps(Step(row, columns[0], changes), columns[1..], changes);
    }
  }

  /** Considering the four columns in order gives the patch. */
  lemma AssignChosen(row: Citizen, changes: CitizenChanges)
    ensures Assign(row, Chosen(AllColumns, changes), ChosenValues(Chosen(AllColumns, changes), changes)) == Patched(row, changes)
  {
    var columns := AllColumns;
    AssignIsSteps(row, columns, changes);
    assert columns[1..][1..][1..][1..] == [];
    var r1 := Step(row, FullNameColumn, changes);
    var r2 := Step(r1, PhoneNumberColumn, changes);
    var r3 := Step(r2, EmailColumn, changes);
    var r4 := Step(r3, AddressColumn, changes);
    assert Steps(row, columns, changes) == r4;
  }

  /** The column alone when its argument is truthy, otherwise nothing. */
  function Pick(changes: CitizenChanges, column: CitizenColumn): seq<CitizenColumn>
  {
    if Truthy(Argument(changes, column)) then [column] else []
  }

  /** `Chosen` over a column followed by more columns. */
  lemma ChosenCons(c: CitizenColumn, rest: seq<CitizenColumn>, changes: CitizenChanges)
    ensures Chosen([c] + rest, changes) == Pick(changes, c) + Chosen(rest, changes)
  {
    assert ([c] + rest)[1..] == rest;
  }

  /** `Chosen` over the four columns, unrolled. */
  lemma ChosenAllColumns(changes: CitizenChanges)
    ensures Chosen(AllColumns, changes) == Pick(changes, FullNameColumn) + Pick(changes, PhoneNumberColumn) + Pick(changes, EmailColumn) + Pick(changes, AddressColumn)
  {
    var s3: seq<CitizenColumn> := [AddressColumn];
    var s2: seq<CitizenColumn> := [EmailColumn, AddressColumn];
    var s1: seq<CitizenColumn> := [PhoneNumberColumn, EmailColumn, AddressColumn];
    assert Chosen(s3, changes) == Pick(changes, AddressColumn) by {
      ChosenCons(AddressColumn, [], changes);
      assert s3 == [AddressColumn] + [];
    }
    assert Chosen(s2, changes) == Pick(changes, EmailColumn) + Pick(changes, AddressColumn) by {
      ChosenCons(EmailColumn, s3, changes);
      assert s2 == [EmailColumn] + s3;
    }
    assert Chosen(s1, changes) == Pick(changes, PhoneNumberColumn) + (Pick(changes, EmailColumn) + Pick(changes, AddressColumn)) by {
      ChosenCons(PhoneNumberColumn, s2, changes);
      assert s1 == [PhoneNumberColumn] + s2;
    }
    assert Chosen(AllColumns, changes) == Pick(changes, FullNameColumn) + (Pick(changes, PhoneNumberColumn) + (Pick(changes, EmailColumn) + Pick(changes, AddressColumn))) by {
      ChosenCons(FullNameColumn, s1, changes);
      assert AllColumns == [FullNameColumn] + s1;
    }
    assert Pick(changes, FullNameColumn) + (Pick(changes, PhoneNumberColumn) + (Pick(changes, EmailColumn) + Pick(changes, AddressColumn))) == Pick(changes, FullNameColumn) + Pick(changes, PhoneNumberColumn) + Pick(changes, EmailColumn) + Pick(changes, AddressColumn);
  }

  /** One step of the left-to-right assignment over a suffix of the columns. */
  lemma AssignSuffix(row: Citizen, columns: seq<CitizenColumn>, changes: CitizenChanges)
    requires columns != []
    ensures var chosen := Chosen(columns, changes);
            var rest := Chosen(columns[1..], changes);
            var c := columns[0];
            var next := if Truthy(Argument(changes, c)) then SetColumn(row, c, ArgumentText(changes, c)) else row;
            Assign(row, chosen, ChosenValues(chosen, changes)) == Assign(next, rest, ChosenValues(rest, changes))
  {
    var chosen := Chosen(columns, changes);
    var rest := Chosen(columns[1..], changes);
    if Truthy(Argument(changes, columns[0])) {
      assert chosen[1..] == rest;
      assert ChosenValues(chosen, changes)[1..] == ChosenValues(rest, changes);
    }
  }

  /** `SELECT * FROM citizens ORDER BY citizen_id`. */
  function GetAllCitizens(rows: map<int, Citizen>): (r: seq<CitizenRow>)
    ensures |r| == |rows|
    ensures forall i :: 0 <= i < |r| ==> r[i].citizenId in rows && r[i].citizen == rows[r[i].citizenId]
    ensures forall i, j :: 0 <= i < j < |r| ==> r[i].citizenId < r[j].citizenId
  {
    var ids := KeysAscending(rows.Keys);
    assert forall i :: 0 <= i < |ids| ==> ids[i] in rows by {
      forall i | 0 <= i < |ids| ensures ids[i] in rows {
        assert ids[i] in ids;
      }
    }
    seq(|ids|, i requires 0 <= i < |ids| => CitizenRow(ids[i], rows[ids[i]]))
  }

  /** Every stored citizen appears in `get_all_citizens`. */
  lemma GetAllCitizensComplete(rows: map<int, Citizen>, citizenId: int)
    requires citizenId in rows
    ensures exists i :: 0 <= i < |GetAllCitizens(rows)| && GetAllCitizens(rows)[i].citizenId == citizenId
  {
    var ids := KeysAscending(rows.Keys);
    var i :| 0 <= i < |ids| && ids[i] == citizenId;
    assert GetAllCitizens(rows)[i].citizenId == citizenId;
  }

  /** `SELECT * FROM citizens WHERE citizen_id = %s`: the row, or `None`. */
  function GetCitizenById(rows: map<int, Citizen>, citizenId: int): (r: Option<Citizen>)
    ensures r.Some? <==> citizenId in rows
    ensures r.Some? ==> r.value == rows[citizenId]
  {
    if citizenId in rows then Some(rows[citizenId]) else None
  }

  /** The `citizens` table: its rows by key and the next value of its key
      sequence. */
  class CitizenTable {
    var rows: map<int, Citizen>
    var nextId: int

    ghost predicate Valid()
      reads this
    {
      nextId >= 1 && forall id :: id in rows ==> 1 <= id < nextId
    }

    constructor ()
      ensures Valid() && rows == map[] && nextId == 1
    {
      rows, nextId := map[], 1;
    }

    /** `INSERT INTO citizens (...) VALUES (...) RETURNING citizen_id`;
        `fault` stands for a missing connection or a statement that raised,
        after which the transaction is rolled back. */
    method AddCitizen(fullName: string, phoneNumber: string, email: Option<string>, address: Option<string>, fault: bool)
      returns (citizenId: Option<int>)
      requires Valid()
      modifies this
      ensures Valid()
      ensures citizenId.Some? <==> !fault
      ensures citizenId.Some? ==>
        && citizenId.value == old(nextId) && citizenId.value !in old(rows)
        && rows == old(rows)[citizenId.value := Citizen(fullName, phoneNumber, email, address)]
        && nextId == old(nextId) + 1
      ensures citizenId.None? ==> rows == old(rows) && nextId == old(nextId)
    {
      if fault {
        return None;
      }
      citizenId := Some(nextId);
      rows := rows[nextId := Citizen(fullName, phoneNumber, email, address)];
      nextId := nextId + 1;
    }

    /** `update_citizen`: writes the truthy fields of `changes` to the row
        `citizenId`; `False` without touching the table when there is none,
        `True` whenever the statement ran, whether or not a row matched. */
    method UpdateCitizen(citizenId: int, changes: CitizenChanges, fault: bool) returns (ok: bool)
      requires Valid()
      modifies this
      ensures Valid() && nextId == old(nextId)
      ensures ok <==> !fault && HasChange(changes)
      ensures ok ==> rows == if citizenId in old(rows) then old(rows)[citizenId := Patched(old(rows)[citizenId], changes)] else old(rows)
      ensures !ok ==> rows == old(rows)
    {
      var updates, values := BuildUpdate(changes);
      if updates == [] {
        return false;
      }
      values := values + [KeyParam(citizenId)];
      if fault {
        return false;
      }
      UpdateStatementEffect(rows, citizenId, changes);
      assert values == ChosenValues(updates, changes) + [KeyParam(citizenId)];
      rows := ExecuteUpdate(rows, updates, values);
      ok := true;
    }

    /** `DELETE FROM citizens WHERE citizen_id = %s`; `True` whenever the
        statement ran. Cases that name the citizen are not touched. */
    method DeleteCitizen(citizenId: int, fault: bool) returns (ok: bool)
      requires Valid()
      modifies this
      ensures Valid() && nextId == old(nextId)
      ensures ok <==> !fault
      ensures rows == if ok then old(rows) - {citizenId} else old(rows)
    {
      if fault {
        return false;
      }
      rows := rows - {citizenId};
      ok := true;
    }
  }
}
