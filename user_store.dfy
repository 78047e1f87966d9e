/**
 * The users table behind the package's database handle, seen as the list of committed rows
 * in insertion order. A single-row query returns the first row whose column matches.
 */
module UserStore {
  import opened Wrappers
  import opened UserRecord

  /** The committed contents of the users table. */
  class Store {
    var rows: seq<User>

    constructor (initial: seq<User>)
      ensures rows == initial
    {
      rows := initial;
    }
  }

  /** The two columns the package queries on. */
  datatype Column = IdColumn | TokenColumn

  function KeyOf(u: User, column: Column): string {
    match column
    case IdColumn => u.id
    case TokenColumn => u.accessToken
  }

  /** Some row carries `key` in `column`. */
  predicate HasKey(rows: seq<User>, column: Column, key: string) {
    exists k :: 0 <= k < |rows| && KeyOf(rows[k], column) == key
  }

  /** No two rows share a value in `column` (for the id column: the table's primary key). */
  ghost predicate UniqueIn(rows: seq<User>, column: Column) {
    forall i, j :: 0 <= i < j < |rows| ==> KeyOf(rows[i], column) != KeyOf(rows[j], column)
  }

  /** The position of the first row matching `key`, or `|rows|` when none does. */
  function FirstIndex(rows: seq<User>, column: Column, key: string): (k: nat)
    ensures k <= |rows|
    ensures k < |rows| ==> KeyOf(rows[k], column) == key
    ensures forall j :: 0 <= j < k ==> KeyOf(rows[j], column) != key
  {
    if |rows| == 0 then 0
    else if KeyOf(rows[0], column) == key then 0
    else 1 + FirstIndex(rows[1..], column, key)
  }

  /** A single-row query `WHERE column = key`: the first matching row, or no row. */
  function Select(rows: seq<User>, column: Column, key: string): (r: Option<User>)
    ensures r.None? <==> !HasKey(rows, column, key)
    ensures r.Some? ==> r.value in rows && KeyOf(r.value, column) == key
  {
    var k := FirstIndex(rows, column, key);
    if k < |rows| then Some(rows[k]) else None
  }

  /** Under a unique column, the query for a row's own key returns exactly that row. */
  lemma SelectUnique(rows: seq<User>, column: Column, k: nat)
    requires UniqueIn(rows, column)
    requires k < |rows|
    ensures Select(rows, column, KeyOf(rows[k], column)) == Some(rows[k])
  {
  }

  /** Appending a row changes no earlier answer, and a key found only in the new row yields that row. */
  lemma {:induction false} SelectAppend(rows: seq<User>, row: User, column: Column, key: string)
    ensures Select(rows + [row], column, key)
      == if HasKey(rows, column, key) then Select(rows, column, key)
         else if KeyOf(row, column) == key then Some(row)
         else None
  {
    FirstIndexAppend(rows, row, column, key);
  }

  lemma {:induction false} FirstIndexAppend(rows: seq<User>, row: User, column: Column, key: string)
    ensures FirstIndex(rows + [row], column, key)
      == if FirstIndex(rows, column, key) < |rows| then FirstIndex(rows, column, key)
         else if KeyOf(row, column) == key then |rows|
         else |rows| + 1
  {
    if |rows| > 0 {
      assert (rows + [row])[1..] == rows[1..] + [row];
      if KeyOf(rows[0], column) != key {
        FirstIndexAppend(rows[1..], row, column, key);
      }
    }
  }

  /**
   * Inserting a row whose id is new: its id now finds it, every other id finds what it found
   * before, and a unique id column stays unique.
   */
  lemma InsertFresh(rows: seq<User>, row: User)
    requires !HasKey(rows, IdColumn, row.id)
    ensures Select(rows + [row], IdColumn, row.id) == Some(row)
    ensures forall other :: other != row.id ==> Select(rows + [row], IdColumn, other) == Select(rows, IdColumn, other)
    ensures UniqueIn(rows, IdColumn) ==> UniqueIn(rows + [row], IdColumn)
  {
    SelectAppend(rows, row, IdColumn, row.id);
    forall other | other != row.id
      ensures Select(rows + [row], IdColumn, other) == Select(rows, IdColumn, other)
    {
      SelectAppend(rows, row, IdColumn, other);
    }
    if UniqueIn(rows, IdColumn) {
      var r := rows + [row];
      forall i, j | 0 <= i < j < |r| ensures KeyOf(r[i], IdColumn) != KeyOf(r[j], IdColumn) {
        if j == |rows| {
          assert r[i] == rows[i];
        }
      }
    }
  }

  /**
   * The rows after `UPDATE users SET disabled_at = now WHERE id = id`: the matching rows get the
   * timestamp and keep every other field; all other rows are untouched.
   */
  function MarkDisabled(rows: seq<User>, id: string, now: Time): (r: seq<User>)
    ensures |r| == |rows|
    ensures forall k :: 0 <= k < |rows| && rows[k].id != id ==> r[k] == rows[k]
    ensures forall k :: 0 <= k < |rows| && rows[k].id == id ==> r[k] == rows[k].(disabledAt := Some(now))
  {
    if |rows| == 0 then []
    else
      var head := if rows[0].id == id then rows[0].(disabledAt := Some(now)) else rows[0];
      [head] + MarkDisabled(rows[1..], id, now)
  }

  /**
   * Soft delete: after marking, a lookup of the id returns the same user with only `disabledAt`
   * set, and the id column stays unique.
   */
  lemma MarkDisabledFindsUser(rows: seq<User>, k: nat, now: Time)
    requires UniqueIn(rows, IdColumn)
    requires k < |rows|
    ensures UniqueIn(MarkDisabled(rows, rows[k].id, now), IdColumn)
    ensures Select(MarkDisabled(rows, rows[k].id, now), IdColumn, rows[k].id)
      == Some(rows[k].(disabledAt := Some(now)))
  {
  }

  /** Marking one id disabled leaves the answer for every other id as it was. */
  lemma MarkDisabledKeepsOthers(rows: seq<User>, id: string, now: Time, other: string)
    requires other != id
    ensures Select(MarkDisabled(rows, id, now), IdColumn, other) == Select(rows, IdColumn, other)
  {
    var r := MarkDisabled(rows, id, now);
    assert forall j :: 0 <= j < |rows| ==> r[j].id == rows[j].id;
    SameIdsSameIndex(rows, r, other);
  }

  /** Two tables with the same ids in the same order answer every id query from the same position. */
  lemma SameIdsSameIndex(a: seq<User>, b: seq<User>, key: string)
    requires |a| == |b|
    requires forall j :: 0 <= j < |a| ==> a[j].id == b[j].id
    ensures FirstIndex(a, IdColumn, key) == FirstIndex(b, IdColumn, key)
  {
  }
}
