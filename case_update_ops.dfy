/** The `case_updates` table: the progress notes officers add to a case, the
    select of a case's notes joined with their officers, delete, and the
    note preview of the notes listing. */
module CaseUpdateOps {
  import opened Sql
  import opened Ordering
  import OfficerOps

  /** One row of `case_updates`; its key `update_id` is the key of the table's
      map. `updatedAt` is the store's timestamp, an opaque totally ordered value. */
  datatype CaseUpdate = CaseUpdate(caseId: int, officerId: int, updateNote: string, updatedAt: int)

  /** A row of `get_updates_by_case`: the note, its time, and the officer's
      name and badge number. */
  datatype UpdateRow = UpdateRow(updateId: int, updateNote: string, updatedAt: int, officerName: string, badgeNumber: string)

  /** A note of case `caseId` whose officer exists (`JOIN officers o ON
      cu.officer_id = o.officer_id WHERE cu.case_id = %s`). */
  predicate Listed(updates: map<int, CaseUpdate>, officers: map<int, OfficerOps.Officer>, caseId: int, updateId: int)
  {
    updateId in updates && updates[updateId].caseId == caseId && updates[updateId].officerId in officers
  }

  function RowOf(updateId: int, u: CaseUpdate, officers: map<int, OfficerOps.Officer>): UpdateRow
    requires u.officerId in officers
  {
    UpdateRow(updateId, u.updateNote, u.updatedAt, officers[u.officerId].fullName, officers[u.officerId].badgeNumber)
  }

  /** Definition: the `updated_at` column of every note, the sort key of the
      select. */
  function UpdatedAt(updates: map<int, CaseUpdate>): (time: map<int, int>)
    ensures time.Keys == updates.Keys
    ensures forall id :: id in updates ==> time[id] == updates[id].updatedAt
  {
    map id | id in updates :: updates[id].updatedAt
  }

  /** The keys of the listed notes of `caseId`, each once, newest first. */
  function ListedIds(updates: map<int, CaseUpdate>, officers: map<int, OfficerOps.Officer>, caseId: int): (ids: seq<int>)
    ensures forall id :: id in ids <==> Listed(updates, officers, caseId, id)
    ensures forall i :: 0 <= i < |ids| ==> ids[i] in updates && updates[ids[i]].officerId in officers
    ensures Distinct(ids)
    ensures forall i, j :: 0 <= i < j < |ids| ==> updates[ids[i]].updatedAt >= updates[ids[j]].updatedAt
  {
    var time := UpdatedAt(updates);
    var s := Where(KeysDescending(updates.Keys), id => Listed(updates, officers, caseId, id));
    assert Timed(s, time) by {
      forall i | 0 <= i < |s| ensures s[i] in time {
        assert s[i] in s;
      }
    }
    DescendingDistinct(s);
    SortNewestFirstCorrect(s, time);
    var ids := SortNewestFirst(s, time);
    assert forall i :: 0 <= i < |ids| ==> ids[i] in updates && updates[ids[i]].officerId in officers by {
      forall i | 0 <= i < |ids| ensures ids[i] in updates && updates[ids[i]].officerId in officers {
        assert ids[i] in ids;
      }
    }
    ids
  }

  /** Definition: the notes `ids` as rows of the select, one per key in order. */
  function Rows(ids: seq<int>, updates: map<int, CaseUpdate>, officers: map<int, OfficerOps.Officer>): (r: seq<UpdateRow>)
    requires forall i :: 0 <= i < |ids| ==> ids[i] in updates && updates[ids[i]].officerId in officers
    ensures |r| == |ids|
    ensures forall i :: 0 <= i < |r| ==> r[i] == RowOf(ids[i], updates[ids[i]], officers)
  {
    seq(|ids|, i requires 0 <= i < |ids| => RowOf(ids[i], updates[ids[i]], officers))
  }

  /** `SELECT cu.update_id, cu.update_note, cu.updated_at, o.full_name,
      o.badge_number FROM case_updates cu JOIN officers o ... WHERE cu.case_id
      = %s ORDER BY cu.updated_at DESC`. */
  function GetUpdatesByCase(updates: map<int, CaseUpdate>, officers: map<int, OfficerOps.Officer>, caseId: int): (r: seq<UpdateRow>)
    ensures forall i :: 0 <= i < |r| ==>
      && Listed(updates, officers, caseId, r[i].updateId)
      && r[i] == RowOf(r[i].updateId, updates[r[i].updateId], officers)
    ensures forall i, j :: 0 <= i < j < |r| ==> r[i].updateId != r[j].updateId && r[i].updatedAt >= r[j].updatedAt
  {
    Rows(ListedIds(updates, officers, caseId), updates, officers)
  }

  /** Every note of the case whose officer exists is listed. */
  lemma GetUpdatesByCaseComplete(updates: map<int, CaseUpdate>, officers: map<int, OfficerOps.Officer>, caseId: int, updateId: int)
    requires Listed(updates, officers, caseId, updateId)
    ensures var r := GetUpdatesByCase(updates, officers, caseId);
            exists i :: 0 <= i < |r| && r[i].updateId == updateId
  {
    var ids := ListedIds(updates, officers, caseId);
    assert updateId in ids;
    var i :| 0 <= i < |ids| && ids[i] == updateId;
    var r := Rows(ids, updates, officers);
    assert r == GetUpdatesByCase(updates, officers, caseId);
    assert r[i] == RowOf(ids[i], updates[ids[i]], officers);
  }

  /** The note column of the notes listing: the note itself when it has at
      most 40 characters, otherwise its first 37 followed by "...". */
  function NotePreview(note: string): (p: string)
    ensures |p| <= 40
    ensures |note| <= 40 ==> p == note
    ensures |note| > 40 ==> |p| == 40 && p[..37] == note[..37] && p[37..] == "..."
  {
    if |note| > 40 then note[..37] + "..." else note
  }

  /** The `case_updates` table: its rows by key and the next value of its key
      sequence. */
  class CaseUpdateTable {
    var rows: map<int, CaseUpdate>
    var nextId: int

    ghost predicate Valid()
      reads this
    {
      nextId >= 1 && forall id :: id in rows ==> 1 <= id < nextId
    }

    constructor ()
      ensures Valid() && rows == map[] && nextId == 1
    {
      rows, nextId := map[], 1;
    }

    /** `INSERT INTO case_updates (case_id, officer_id, update_note) VALUES
        (...) RETURNING update_id`; the store stamps it with `now`. `fault`
        stands for a missing connection or a statement that raised (a case or
        officer key the store rejects, say), after which the transaction is
        rolled back. */
    method AddCaseUpdate(caseId: int, officerId: int, updateNote: string, now: int, fault: bool)
      returns (updateId: Option<int>)
      requires Valid()
      modifies this
      ensures Valid()
      ensures updateId.Some? <==> !fault
      ensures updateId.Some? ==>
        && updateId.value == old(nextId) && updateId.value !in old(rows)
        && rows == old(rows)[updateId.value := CaseUpdate(caseId, officerId, updateNote, now)]
        && nextId == old(nextId) + 1
      ensures updateId.None? ==> rows == old(rows) && nextId == old(nextId)
    {
      if fault {
        return None;
      }
      updateId := Some(nextId);
      rows := rows[nextId := CaseUpdate(caseId, officerId, updateNote, now)];
      nextId := nextId + 1;
    }

    /** `DELETE FROM case_updates WHERE update_id = %s`; `True` whenever the
        statement ran. */
    method DeleteCaseUpdate(updateId: int, fault: bool) returns (ok: bool)
      requires Valid()
      modifies this
      ensures Valid() && nextId == old(nextId)
      ensures ok <==> !fault
      ensures rows == if ok then old(rows) - {updateId} else old(rows)
    {
      if fault {
        return false;
      }
      rows := rows - {updateId};
      ok := true;
    }
  }
}
