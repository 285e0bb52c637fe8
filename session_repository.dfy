/**
 * The `device_session` table and the TypeORM repository calls the service
 * makes on it (`findOne`, `delete`, `update`, `save`), each as one atomic
 * step on the rows. The rows are kept in insertion order; `findOne` hands
 * back the first row that matches.
 */
module SessionRepository {
  import opened Wrappers

  /** One row of the table. `expiredAt` and `createdAt` are milliseconds since the epoch. */
  datatype Session = Session(
    id: string,
    userId: string,
    deviceId: string,
    ipAddress: string,
    refreshToken: string,
    secretKey: string,
    expiredAt: int,
    createdAt: int)

  /** A `where` criterion: every field that is present must equal the row's. */
  datatype Where = Where(
    id: Option<string>,
    userId: Option<string>,
    deviceId: Option<string>,
    refreshToken: Option<string>)

  predicate Matches(s: Session, w: Where) {
    && (w.id.Some? ==> s.id == w.id.value)
    && (w.userId.Some? ==> s.userId == w.userId.value)
    && (w.deviceId.Some? ==> s.deviceId == w.deviceId.value)
    && (w.refreshToken.Some? ==> s.refreshToken == w.refreshToken.value)
  }

  /** The partial entity given to `update`: the fields that are present are overwritten. */
  datatype Patch = Patch(
    refreshToken: Option<string>,
    expiredAt: Option<int>,
    secretKey: Option<string>)

  function Apply(s: Session, p: Patch): Session {
    s.(refreshToken := if p.refreshToken.Some? then p.refreshToken.value else s.refreshToken,
       expiredAt := if p.expiredAt.Some? then p.expiredAt.value else s.expiredAt,
       secretKey := if p.secretKey.Some? then p.secretKey.value else s.secretKey)
  }

  /** The table's primary key: no two rows share an id. */
  predicate DistinctIds(rows: seq<Session>) {
    forall i, j :: 0 <= i < j < |rows| ==> rows[i].id != rows[j].id
  }

  predicate HasId(rows: seq<Session>, id: string) {
    exists s :: s in rows && s.id == id
  }

  /** The number of rows a criterion selects: the `affected` count of `delete` and `update`. */
  function Count(rows: seq<Session>, w: Where): (n: nat)
    ensures n <= |rows|
    ensures n == 0 <==> forall s :: s in rows ==> !Matches(s, w)
  {
    if rows == [] then 0
    else (if Matches(rows[0], w) then 1 else 0) + Count(rows[1..], w)
  }

  /** `delete(where)`: exactly the selected rows disappear, the others stay. */
  function Delete(rows: seq<Session>, w: Where): (r: seq<Session>)
    ensures forall s :: s in r <==> s in rows && !Matches(s, w)
    ensures |r| + Count(rows, w) == |rows|
    ensures Count(rows, w) == 0 ==> r == rows
  {
    if rows == [] then []
    else if Matches(rows[0], w) then Delete(rows[1..], w)
    else [rows[0]] + Delete(rows[1..], w)
  }

  /** `update(where, patch)`: every selected row gets the patch, every other row is left as it was. */
  function Update(rows: seq<Session>, w: Where, p: Patch): (r: seq<Session>)
    ensures |r| == |rows|
    ensures forall i :: 0 <= i < |rows| ==>
      r[i] == if Matches(rows[i], w) then Apply(rows[i], p) else rows[i]
  {
    if rows == [] then []
    else [if Matches(rows[0], w) then Apply(rows[0], p) else rows[0]] + Update(rows[1..], w, p)
  }

  /** The position of the first row a criterion selects, if any. */
  function FirstMatch(rows: seq<Session>, w: Where): (r: Option<nat>)
    ensures r.Some? ==> r.value < |rows| && Matches(rows[r.value], w)
    ensures r.Some? ==> forall j :: 0 <= j < r.value ==> !Matches(rows[j], w)
    ensures r.None? ==> forall j :: 0 <= j < |rows| ==> !Matches(rows[j], w)
  {
    if rows == [] then None
    else if Matches(rows[0], w) then Some(0)
    else match FirstMatch(rows[1..], w)
      case None => None
      case Some(k) => Some(k + 1)
  }

  /** `findOne({ where })`: some selected row, or nothing exactly when no row is selected. */
  function FindOne(rows: seq<Session>, w: Where): (r: Option<Session>)
    ensures r.Some? ==> r.value in rows && Matches(r.value, w)
    ensures r.None? <==> forall s :: s in rows ==> !Matches(s, w)
  {
    match FirstMatch(rows, w)
    case None => None
    case Some(i) => Some(rows[i])
  }

  /** Every row carrying `s.id` is replaced by `s`; the others are left as they were. */
  function ReplaceById(rows: seq<Session>, s: Session): (r: seq<Session>)
    ensures |r| == |rows|
    ensures forall i :: 0 <= i < |rows| ==> r[i] == if rows[i].id == s.id then s else rows[i]
  {
    if rows == [] then []
    else [if rows[0].id == s.id then s else rows[0]] + ReplaceById(rows[1..], s)
  }

  /** `save(entity)` of an entity carrying an id: update the row with that id, or insert one at the end. */
  function Save(rows: seq<Session>, s: Session): (r: seq<Session>)
    ensures s in r
    ensures |r| == if HasId(rows, s.id) then |rows| else |rows| + 1
    ensures forall t :: t in r ==> t == s || (t in rows && t.id != s.id)
    ensures forall t :: t in rows && t.id != s.id ==> t in r
    ensures forall i :: 0 <= i < |rows| && rows[i].id != s.id ==> r[i] == rows[i]
    ensures !HasId(rows, s.id) ==> r == rows + [s]
  {
    if HasId(rows, s.id) then ReplaceById(rows, s) else rows + [s]
  }

  /** The criterion `update(id, ...)` uses: the row with that primary key. */
  function ById(id: string): Where {
    Where(Some(id), None, None, None)
  }

  /** No device appears on two rows. */
  predicate OneRowPerDevice(rows: seq<Session>) {
    forall i, j :: 0 <= i < j < |rows| ==> rows[i].deviceId != rows[j].deviceId
  }

  /** Deleting rows keeps the primary key. */
  lemma {:induction false} DeleteKeepsDistinctIds(rows: seq<Session>, w: Where)
    requires DistinctIds(rows)
    ensures DistinctIds(Delete(rows, w))
  {
    if rows != [] {
      DeleteKeepsDistinctIds(rows[1..], w);
      var tail := Delete(rows[1..], w);
      if !Matches(rows[0], w) {
        forall t | t in tail ensures t.id != rows[0].id {
          assert t in rows[1..];
          var m :| 0 <= m < |rows[1..]| && rows[1..][m] == t;
          assert rows[m + 1] == t;
        }
        PrependKeepsDistinct(rows[0], tail);
      }
    }
  }

  lemma PrependKeepsDistinct(h: Session, tail: seq<Session>)
    requires DistinctIds(tail)
    requires forall t :: t in tail ==> t.id != h.id
    ensures DistinctIds([h] + tail)
  {
    var r := [h] + tail;
    forall i, j | 0 <= i < j < |r| ensures r[i].id != r[j].id {
      assert r[j] == tail[j - 1];
      if i == 0 { assert tail[j - 1] in tail; } else { assert r[i] == tail[i - 1]; }
    }
  }

  /** Deleting rows keeps at most one row per device. */
  lemma {:induction false} DeleteKeepsOneRowPerDevice(rows: seq<Session>, w: Where)
    requires OneRowPerDevice(rows)
    ensures OneRowPerDevice(Delete(rows, w))
  {
    if rows != [] {
      DeleteKeepsOneRowPerDevice(rows[1..], w);
      var tail := Delete(rows[1..], w);
      if !Matches(rows[0], w) {
        forall t | t in tail ensures t.deviceId != rows[0].deviceId {
          assert t in rows[1..];
          var m :| 0 <= m < |rows[1..]| && rows[1..][m] == t;
          assert rows[m + 1] == t;
        }
        PrependKeepsOneRowPerDevice(rows[0], tail);
      }
    }
  }

  lemma PrependKeepsOneRowPerDevice(h: Session, tail: seq<Session>)
    requires OneRowPerDevice(tail)
    requires forall t :: t in tail ==> t.deviceId != h.deviceId
    ensures OneRowPerDevice([h] + tail)
  {
    var r := [h] + tail;
    forall i, j | 0 <= i < j < |r| ensures r[i].deviceId != r[j].deviceId {
      assert r[j] == tail[j - 1];
      if i == 0 { assert tail[j - 1] in tail; } else { assert r[i] == tail[i - 1]; }
    }
  }

  /** Under the primary key, `update` by id rewrites exactly one row. */
  lemma UpdateByIdChangesOneRow(rows: seq<Session>, i: nat, p: Patch)
    requires DistinctIds(rows) && i < |rows|
    ensures Update(rows, ById(rows[i].id), p) == rows[i := Apply(rows[i], p)]
  {
    var r := Update(rows, ById(rows[i].id), p);
    forall j | 0 <= j < |rows| ensures r[j] == rows[i := Apply(rows[i], p)][j] {
      if j < i { assert rows[j].id != rows[i].id; }
      else if j > i { assert rows[i].id != rows[j].id; }
    }
  }

  /** An update leaves every row's id, user and device as they were, so it keeps both keys. */
  lemma UpdateKeepsDistinct(rows: seq<Session>, w: Where, p: Patch)
    ensures DistinctIds(rows) ==> DistinctIds(Update(rows, w, p))
    ensures OneRowPerDevice(rows) ==> OneRowPerDevice(Update(rows, w, p))
  {
    var r := Update(rows, w, p);
    assert forall i :: 0 <= i < |rows| ==> r[i].id == rows[i].id && r[i].deviceId == rows[i].deviceId;
  }

  /** Under the primary key, saving an entity whose id is on row `i` replaces row `i` in place. */
  lemma SaveOverExisting(rows: seq<Session>, i: nat, s: Session)
    requires DistinctIds(rows) && i < |rows| && rows[i].id == s.id
    ensures Save(rows, s) == rows[i := s]
  {
    assert HasId(rows, s.id) by { assert rows[i] in rows; }
    var r := Save(rows, s);
    forall j | 0 <= j < |rows| ensures r[j] == rows[i := s][j] {
      if j < i { assert rows[j].id != rows[i].id; }
      else if j > i { assert rows[i].id != rows[j].id; }
    }
  }

  /** Saving keeps the primary key. */
  lemma SaveKeepsDistinctIds(rows: seq<Session>, s: Session)
    requires DistinctIds(rows)
    ensures DistinctIds(Save(rows, s))
  {
    if HasId(rows, s.id) {
      var r := Save(rows, s);
      assert forall k :: 0 <= k < |rows| ==> r[k].id == rows[k].id;
    } else {
      forall k | 0 <= k < |rows| ensures rows[k].id != s.id {
        assert rows[k] in rows;
      }
    }
  }

  /**
   * Saving keeps at most one row per device, provided every row already on
   * the saved entity's device carries the saved entity's id.
   */
  lemma SaveKeepsOneRowPerDevice(rows: seq<Session>, s: Session)
    requires DistinctIds(rows) && OneRowPerDevice(rows)
    requires forall t :: t in rows && t.deviceId == s.deviceId ==> t.id == s.id
    ensures OneRowPerDevice(Save(rows, s))
  {
    var r := Save(rows, s);
    if HasId(rows, s.id) {
      var i :| 0 <= i < |rows| && rows[i].id == s.id;
      SaveOverExisting(rows, i, s);
      forall j | 0 <= j < |rows| && j != i ensures rows[j].deviceId != s.deviceId {
        assert rows[j] in rows;
        assert rows[j].id != rows[i].id by {
          if j < i { assert rows[j].id != rows[i].id; } else { assert rows[i].id != rows[j].id; }
        }
      }
    } else {
      forall j | 0 <= j < |rows| ensures rows[j].deviceId != s.deviceId {
        assert rows[j] in rows;
      }
    }
  }
}
