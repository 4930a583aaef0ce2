/**
 * The two ORM calls the jobs are built from, over a table held as the sequence
 * of its rows in the order the query returns them: `.filter(...).first()` and
 * `.get_or_create(...)`.
 */
module Orm {
  import opened Wrappers

  /** The name of the `Status` every object the jobs create is given. */
  const ACTIVE: string := "Active"

  /** Why a `get_or_create` raises. */
  datatype OrmError =
    | DoesNotExist
    | MultipleObjectsReturned
    /** The row to be created collides with an existing one on a unique key. */
    | IntegrityError

  /** `.filter(p).first()`: the index of the first row satisfying `p`, if any. */
  function First<T>(rows: seq<T>, p: T -> bool): (r: Option<nat>)
    ensures r.Some? ==> r.value < |rows| && p(rows[r.value])
    ensures r.Some? ==> forall j :: 0 <= j < r.value ==> !p(rows[j])
    ensures r.None? ==> forall j :: 0 <= j < |rows| ==> !p(rows[j])
  {
    if |rows| == 0 then None
    else if p(rows[0]) then Some(0)
    else match First(rows[1..], p)
      case None => None
      case Some(i) => Some(i + 1)
  }

  /** `.filter(p).count()`. */
  function Count<T>(rows: seq<T>, p: T -> bool): nat {
    if |rows| == 0 then 0
    else Count(rows[..|rows| - 1], p) + (if p(rows[|rows| - 1]) then 1 else 0)
  }

  lemma {:induction false} CountZero<T>(rows: seq<T>, p: T -> bool)
    ensures Count(rows, p) == 0 <==> forall j :: 0 <= j < |rows| ==> !p(rows[j])
  {
    if |rows| > 0 {
      var init := rows[..|rows| - 1];
      CountZero(init, p);
      assert forall j :: 0 <= j < |init| ==> init[j] == rows[j];
    }
  }

  lemma CountAppend<T>(rows: seq<T>, x: T, p: T -> bool)
    ensures Count(rows + [x], p) == Count(rows, p) + (if p(x) then 1 else 0)
  {
    assert (rows + [x])[..|rows|] == rows;
  }

  /** Two different matching rows make the count at least two. */
  lemma {:induction false} CountTwo<T>(rows: seq<T>, p: T -> bool, i: nat, j: nat)
    requires i < j < |rows| && p(rows[i]) && p(rows[j])
    ensures Count(rows, p) >= 2
  {
    var init := rows[..|rows| - 1];
    if j < |rows| - 1 {
      assert init[i] == rows[i] && init[j] == rows[j];
      CountTwo(init, p, i, j);
    } else {
      assert init[i] == rows[i];
      CountZero(init, p);
    }
  }

  /** With exactly one match, the first match is the only one. */
  lemma CountOne<T>(rows: seq<T>, p: T -> bool)
    requires Count(rows, p) == 1
    ensures First(rows, p).Some?
    ensures forall j :: 0 <= j < |rows| && p(rows[j]) ==> j == First(rows, p).value
  {
    CountZero(rows, p);
    var i := First(rows, p).value;
    forall j | 0 <= j < |rows| && p(rows[j])
      ensures j == i
    {
      if j > i {
        CountTwo(rows, p, i, j);
      }
    }
  }

  /**
   * `get_or_create`: with one row matching the lookup, that row and nothing
   * created; with none, `row` appended and returned; with several,
   * `MultipleObjectsReturned`. The result is the table afterwards, the row's
   * index and whether it was created.
   */
  function GetOrCreate<T>(rows: seq<T>, p: T -> bool, row: T): (r: Result<(seq<T>, nat, bool), OrmError>)
    requires p(row)
    ensures r.Err? <==> Count(rows, p) >= 2
    ensures r.Ok? ==> var (after, i, created) := r.value;
      && i < |after| && p(after[i])
      && (forall j :: 0 <= j < |after| && p(after[j]) ==> j == i)
      && (created <==> forall j :: 0 <= j < |rows| ==> !p(rows[j]))
      && after == (if created then rows + [row] else rows)
  {
    var n := Count(rows, p);
    CountZero(rows, p);
    if n >= 2 then Err(MultipleObjectsReturned)
    else if n == 1 then
      CountOne(rows, p);
      Ok((rows, First(rows, p).value, false))
    else Ok((rows + [row], |rows|, true))
  }

  /** A second identical `get_or_create` finds the row the first one returned and changes nothing. */
  lemma GetOrCreateIdempotent<T>(rows: seq<T>, p: T -> bool, row: T)
    requires p(row) && GetOrCreate(rows, p, row).Ok?
    ensures var (after, i, _) := GetOrCreate(rows, p, row).value;
      GetOrCreate(after, p, row) == Ok((after, i, false))
  {
    var (after, i, created) := GetOrCreate(rows, p, row).value;
    if created {
      CountAppend(rows, row, p);
      CountZero(rows, p);
    }
    CountExactlyOne(after, p, i);
    CountOne(after, p);
  }

  /** A table with a single matching row counts one. */
  lemma {:induction false} CountExactlyOne<T>(rows: seq<T>, p: T -> bool, i: nat)
    requires i < |rows| && p(rows[i])
    requires forall j :: 0 <= j < |rows| && p(rows[j]) ==> j == i
    ensures Count(rows, p) == 1
  {
    var init := rows[..|rows| - 1];
    if i < |rows| - 1 {
      assert init[i] == rows[i];
      forall j | 0 <= j < |init| && p(init[j])
        ensures j == i
      {
        assert init[j] == rows[j];
      }
      CountExactlyOne(init, p, i);
    } else {
      forall j | 0 <= j < |init|
        ensures !p(init[j])
      {
        assert init[j] == rows[j];
      }
      CountZero(init, p);
    }
  }

  // ---------------------------------------------------------------------------
  // Tables with a unique key
  // ---------------------------------------------------------------------------

  /** No two rows share a key: what a unique constraint on the table guarantees. */
  predicate UniqueOn<T, K(==)>(rows: seq<T>, key: T -> K) {
    forall i, j :: 0 <= i < j < |rows| ==> key(rows[i]) != key(rows[j])
  }

  predicate HasKey<T, K(==)>(rows: seq<T>, key: T -> K, k: K) {
    exists i :: 0 <= i < |rows| && key(rows[i]) == k
  }

  /** The lookup "this row's key equals `k`". */
  function KeyIs<T, K(==)>(key: T -> K, k: K): T -> bool {
    x => key(x) == k
  }

  /**
   * `get_or_create` looked up on a table's unique key: the row is appended
   * unless a row with its key is already there.
   */
  function InsertIfAbsent<T, K(==)>(rows: seq<T>, key: T -> K, row: T): (r: seq<T>)
    ensures |rows| <= |r| <= |rows| + 1 && r[..|rows|] == rows
  {
    if HasKey(rows, key, key(row)) then rows else rows + [row]
  }

  /** Afterwards the table holds the row's key and every key it held before, and no other. */
  lemma InsertIfAbsentKeys<T, K>(rows: seq<T>, key: T -> K, row: T, k: K)
    ensures HasKey(InsertIfAbsent(rows, key, row), key, k) <==> HasKey(rows, key, k) || k == key(row)
  {
    var r := InsertIfAbsent(rows, key, row);
    if HasKey(rows, key, k) {
      var i :| 0 <= i < |rows| && key(rows[i]) == k;
      assert r[i] == rows[i];
    }
    if k == key(row) && !HasKey(rows, key, k) {
      assert key(r[|rows|]) == k;
    }
    if HasKey(r, key, k) && k != key(row) {
      var i :| 0 <= i < |r| && key(r[i]) == k;
      assert i < |rows| && rows[i] == r[i];
    }
  }

  /** Inserting if absent keeps a table's keys unique. */
  lemma InsertIfAbsentUnique<T, K>(rows: seq<T>, key: T -> K, row: T)
    requires UniqueOn(rows, key)
    ensures UniqueOn(InsertIfAbsent(rows, key, row), key)
  {
  }

  /** On a table with a unique key, `get_or_create` on that key never raises and inserts if absent. */
  lemma InsertIfAbsentIsGetOrCreate<T, K>(rows: seq<T>, key: T -> K, row: T)
    requires UniqueOn(rows, key)
    ensures GetOrCreate(rows, KeyIs(key, key(row)), row).Ok?
    ensures GetOrCreate(rows, KeyIs(key, key(row)), row).value.0 == InsertIfAbsent(rows, key, row)
  {
    var p := KeyIs(key, key(row));
    if HasKey(rows, key, key(row)) {
      var i :| 0 <= i < |rows| && key(rows[i]) == key(row);
      assert forall j :: 0 <= j < |rows| && p(rows[j]) ==> j == i;
      CountExactlyOne(rows, p, i);
    } else {
      CountZero(rows, p);
    }
  }

  /** A key stays present when rows are only appended. */
  lemma HasKeyExtend<T, K>(rows: seq<T>, more: seq<T>, key: T -> K, k: K)
    requires |rows| <= |more| && more[..|rows|] == rows && HasKey(rows, key, k)
    ensures HasKey(more, key, k)
  {
    var i :| 0 <= i < |rows| && key(rows[i]) == k;
    assert more[i] == rows[i];
  }

  /** `.get(...)`: the only matching row, or `DoesNotExist` / `MultipleObjectsReturned`. */
  function Get<T>(rows: seq<T>, p: T -> bool): (r: Result<nat, OrmError>)
    ensures r == Err(DoesNotExist) <==> forall j :: 0 <= j < |rows| ==> !p(rows[j])
    ensures r == Err(MultipleObjectsReturned) <==> Count(rows, p) >= 2
    ensures r.Ok? ==> r.value < |rows| && p(rows[r.value]) && forall j :: 0 <= j < |rows| && p(rows[j]) ==> j == r.value
  {
    var n := Count(rows, p);
    CountZero(rows, p);
    if n == 0 then Err(DoesNotExist)
    else if n >= 2 then Err(MultipleObjectsReturned)
    else
      CountOne(rows, p);
      Ok(First(rows, p).value)
  }

  /** Replacing one row changes the count by what the old and the new row contribute. */
  lemma {:induction false} CountUpdate<T>(rows: seq<T>, p: T -> bool, i: nat, x: T)
    requires i < |rows|
    ensures Count(rows[i := x], p) + (if p(rows[i]) then 1 else 0) == Count(rows, p) + (if p(x) then 1 else 0)
  {
    var init := rows[..|rows| - 1];
    var upd := rows[i := x];
    if i < |rows| - 1 {
      assert upd[..|rows| - 1] == init[i := x];
      CountUpdate(init, p, i, x);
    } else {
      assert upd[..|rows| - 1] == init;
    }
  }
}
