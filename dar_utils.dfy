/**
 * The credential table and the statements `RinDARUtils` runs against it
 * (src/rin_dar_utils/dar_utils.py). The table is a sequence of rows; its
 * order stands in for whatever order the unordered `SELECT` returns.
 * The first part states each statement as a function on table values, the
 * class at the end holds the table and runs them.
 */
module DarUtils {
  import opened Models

  /** The failures the database reports for a write. */
  datatype StoreError =
    | UniqueViolation  // a second row with a primary key already present
    | StringTooLong    // a value longer than its `String(255)` column
    | InvalidEncoding  // a value holding U+0000, which the server's encoding rejects

  /** What a write statement reports back. */
  datatype WriteOutcome = Written | Failed(error: StoreError)

  predicate HasUuid(rows: seq<DARData>, u: string) {
    exists i :: 0 <= i < |rows| && rows[i].uuid == u
  }

  /** `uuid` is the primary key: no two rows share one. */
  predicate DistinctUuids(rows: seq<DARData>) {
    forall i, j :: 0 <= i < j < |rows| ==> rows[i].uuid != rows[j].uuid
  }

  /** What the database guarantees of every table it holds. */
  predicate ValidTable(rows: seq<DARData>) {
    && DistinctUuids(rows)
    && (forall i :: 0 <= i < |rows| ==> FitsColumns(rows[i]))
    && (forall i :: 0 <= i < |rows| ==> EncodableRow(rows[i]))
  }

  /** `SELECT * WHERE uuid = u`: the rows with that key, in table order. */
  function SelectWhereUuid(rows: seq<DARData>, u: string): (r: seq<DARData>)
    ensures |r| <= |rows|
    ensures forall x :: x in r <==> x in rows && x.uuid == u
  {
    if rows == [] then []
    else (if rows[0].uuid == u then [rows[0]] else []) + SelectWhereUuid(rows[1..], u)
  }

  /** The `refresh_token` column of the given rows. */
  function RefreshTokens(rows: seq<DARData>): seq<string> {
    seq(|rows|, i requires 0 <= i < |rows| => rows[i].refreshToken)
  }

  /** `SELECT refresh_token WHERE uuid = u`: the refresh tokens of the rows with that key. */
  function RefreshTokensWhereUuid(rows: seq<DARData>, u: string): seq<string> {
    RefreshTokens(SelectWhereUuid(rows, u))
  }

  /** Selecting a key no row has finds nothing. */
  lemma {:induction false} SelectAbsent(rows: seq<DARData>, u: string)
    requires !HasUuid(rows, u)
    ensures SelectWhereUuid(rows, u) == []
  {
    if rows != [] {
      assert rows[0].uuid != u;
      assert !HasUuid(rows[1..], u) by {
        forall j | 0 <= j < |rows| - 1 ensures rows[1..][j].uuid != u {
          assert rows[1..][j] == rows[j + 1];
        }
      }
      SelectAbsent(rows[1..], u);
    }
  }

  /** With a primary key, selecting the key of row `i` finds row `i` and nothing else. */
  lemma {:induction false} SelectUnique(rows: seq<DARData>, i: int)
    requires DistinctUuids(rows) && 0 <= i < |rows|
    ensures SelectWhereUuid(rows, rows[i].uuid) == [rows[i]]
  {
    var u, rest := rows[i].uuid, rows[1..];
    assert DistinctUuids(rest) by {
      forall a, b | 0 <= a < b < |rest| ensures rest[a].uuid != rest[b].uuid {
        assert rest[a] == rows[a + 1] && rest[b] == rows[b + 1];
      }
    }
    if i == 0 {
      assert forall j :: 0 <= j < |rest| ==> rest[j].uuid != u by {
        forall j | 0 <= j < |rest| ensures rest[j].uuid != u {
          assert rest[j] == rows[j + 1];
        }
      }
      SelectAbsent(rest, u);
    } else {
      SelectUnique(rest, i - 1);
    }
  }

  /** A key-select finds at most one row, and finds none exactly when the key is absent. */
  lemma SelectAtMostOne(rows: seq<DARData>, u: string)
    requires DistinctUuids(rows)
    ensures |SelectWhereUuid(rows, u)| <= 1
    ensures SelectWhereUuid(rows, u) == [] <==> !HasUuid(rows, u)
  {
    if HasUuid(rows, u) {
      var i :| 0 <= i < |rows| && rows[i].uuid == u;
      SelectUnique(rows, i);
    } else {
      SelectAbsent(rows, u);
    }
  }

  /** INSERT of one row: the value checks run before the primary-key check. */
  function InsertResult(rows: seq<DARData>, row: DARData): WriteOutcome {
    if !EncodableRow(row) then Failed(InvalidEncoding)
    else if !FitsColumns(row) then Failed(StringTooLong)
    else if HasUuid(rows, row.uuid) then Failed(UniqueViolation)
    else Written
  }

  /** A successful insert keeps the table valid. */
  lemma InsertKeepsValid(rows: seq<DARData>, row: DARData)
    requires ValidTable(rows) && InsertResult(rows, row).Written?
    ensures ValidTable(rows + [row])
  {
    var t := rows + [row];
    forall i, j | 0 <= i < j < |t| ensures t[i].uuid != t[j].uuid {
      if j == |rows| {
        assert t[i] == rows[i];
      }
    }
  }

  /** After a successful insert, a select on the new key returns exactly the new row. */
  lemma AddThenGet(rows: seq<DARData>, row: DARData)
    requires ValidTable(rows) && InsertResult(rows, row).Written?
    ensures SelectWhereUuid(rows + [row], row.uuid) == [row]
  {
    InsertKeepsValid(rows, row);
    SelectUnique(rows + [row], |rows|);
  }

  /**
   * UPDATE of both token columns of the rows with key `u`. The bound values
   * are checked whether or not a row matches: first their encoding (the key
   * included), then the length of the new tokens.
   */
  function UpdateResult(u: string, accessToken: string, refreshToken: string): WriteOutcome {
    if !(Encodable(u) && Encodable(accessToken) && Encodable(refreshToken)) then Failed(InvalidEncoding)
    else if |accessToken| > MaxColumnLength || |refreshToken| > MaxColumnLength then Failed(StringTooLong)
    else Written
  }

  /** The table after a successful UPDATE: both tokens of row `u` replaced together. */
  function UpdateWhereUuid(rows: seq<DARData>, u: string, accessToken: string, refreshToken: string): (r: seq<DARData>)
    ensures |r| == |rows|
    ensures forall i :: 0 <= i < |rows| ==> r[i].uuid == rows[i].uuid
    ensures forall i :: 0 <= i < |rows| && rows[i].uuid != u ==> r[i] == rows[i]
    ensures forall i :: 0 <= i < |rows| && rows[i].uuid == u ==>
              r[i].accessToken == accessToken && r[i].refreshToken == refreshToken
  {
    seq(|rows|, i requires 0 <= i < |rows| =>
      if rows[i].uuid == u then rows[i].(accessToken := accessToken, refreshToken := refreshToken)
      else rows[i])
  }

  /** Updating a key that is absent changes nothing. */
  lemma UpdateAbsentIsNoop(rows: seq<DARData>, u: string, accessToken: string, refreshToken: string)
    requires !HasUuid(rows, u)
    ensures UpdateWhereUuid(rows, u, accessToken, refreshToken) == rows
  {
    var r := UpdateWhereUuid(rows, u, accessToken, refreshToken);
    assert forall i :: 0 <= i < |rows| ==> r[i] == rows[i];
  }

  /** Running the same UPDATE twice leaves the table as running it once. */
  lemma UpdateIdempotent(rows: seq<DARData>, u: string, accessToken: string, refreshToken: string)
    ensures var once := UpdateWhereUuid(rows, u, accessToken, refreshToken);
            UpdateWhereUuid(once, u, accessToken, refreshToken) == once
  {
    var once := UpdateWhereUuid(rows, u, accessToken, refreshToken);
    var twice := UpdateWhereUuid(once, u, accessToken, refreshToken);
    assert forall i :: 0 <= i < |rows| ==> twice[i] == once[i];
  }

  /** A successful update keeps the set of keys and the table valid. */
  lemma UpdateKeepsValid(rows: seq<DARData>, u: string, accessToken: string, refreshToken: string)
    requires ValidTable(rows) && UpdateResult(u, accessToken, refreshToken).Written?
    ensures ValidTable(UpdateWhereUuid(rows, u, accessToken, refreshToken))
  {
  }

  /** Update then select by the same key yields exactly the row with the new tokens. */
  lemma UpdateThenGet(rows: seq<DARData>, u: string, accessToken: string, refreshToken: string)
    requires DistinctUuids(rows) && HasUuid(rows, u)
    ensures SelectWhereUuid(UpdateWhereUuid(rows, u, accessToken, refreshToken), u)
            == [DARData(u, accessToken, refreshToken)]
  {
    var i :| 0 <= i < |rows| && rows[i].uuid == u;
    var r := UpdateWhereUuid(rows, u, accessToken, refreshToken);
    assert DistinctUuids(r);
    SelectUnique(r, i);
  }

  /** The database connection as far as the refresher sees it: the table `rin_dar_data`. */
  class RinDARUtils {
    var rows: seq<DARData>

    predicate Valid()
      reads this
    {
      ValidTable(rows)
    }

    /** A freshly created, empty table. */
    constructor ()
      ensures Valid() && rows == []
    {
      rows := [];
    }

    /** `addToDARData`: insert one row; a bad value or a taken key leaves the table as it was. */
    method AddToDARData(uuid: string, accessToken: string, refreshToken: string) returns (res: WriteOutcome)
      requires Valid()
      modifies this
      ensures Valid()
      ensures res == InsertResult(old(rows), DARData(uuid, accessToken, refreshToken))
      ensures rows == if res.Written? then old(rows) + [DARData(uuid, accessToken, refreshToken)] else old(rows)
    {
      var row := DARData(uuid, accessToken, refreshToken);
      res := InsertResult(rows, row);
      if res.Written? {
        InsertKeepsValid(rows, row);
        rows := rows + [row];
      }
    }

    /** `getAllDARData`: every stored row, with distinct keys and values that fit their columns. */
    function GetAllDARData(): (r: seq<DARData>)
      reads this
      requires Valid()
      ensures multiset(r) == multiset(rows)
      ensures ValidTable(r)
    {
      rows
    }

    /** `getDARDataViaUUID`: the full table filtered to key `u`, which is one row or none. */
    function GetDARDataViaUUID(u: string): (r: seq<DARData>)
      reads this
      requires Valid()
      ensures forall x :: x in r <==> x in GetAllDARData() && x.uuid == u
      ensures |r| <= 1
      ensures r == [] <==> !HasUuid(rows, u)
    {
      SelectAtMostOne(rows, u);
      SelectWhereUuid(rows, u)
    }

    /** `getRefreshTokenViaUUID`: the refresh token of row `u` as a list of at most one value. */
    function GetRefreshTokenViaUUID(u: string): (r: seq<string>)
      reads this
      requires Valid()
      ensures |r| <= 1
      ensures r == [] <==> !HasUuid(rows, u)
      ensures forall i :: 0 <= i < |rows| && rows[i].uuid == u ==> r == [rows[i].refreshToken]
    {
      SelectAtMostOne(rows, u);
      var found := SelectWhereUuid(rows, u);
      assert forall i :: 0 <= i < |rows| && rows[i].uuid == u ==> found == [rows[i]] by {
        forall i | 0 <= i < |rows| && rows[i].uuid == u ensures found == [rows[i]] {
          SelectUnique(rows, i);
        }
      }
      RefreshTokensWhereUuid(rows, u)
    }

    /** `updateDARData`: set both tokens of row `u` in one statement; absent `u` is a no-op. */
    method UpdateDARData(uuid: string, accessToken: string, refreshToken: string) returns (res: WriteOutcome)
      requires Valid()
      modifies this
      ensures Valid()
      ensures res == UpdateResult(uuid, accessToken, refreshToken)
      ensures rows == if res.Written? then UpdateWhereUuid(old(rows), uuid, accessToken, refreshToken) else old(rows)
    {
      res := UpdateResult(uuid, accessToken, refreshToken);
      if res.Written? {
        rows := UpdateWhereUuid(rows, uuid, accessToken, refreshToken);
      }
    }
  }

  /**
   * Store `("u1", "a1", "r1")` in an empty table, update it to `("a2", "r2")`,
   * then read it back by key.
   */
  method StoreUpdateRead() returns (found: seq<DARData>)
    ensures found == [DARData("u1", "a2", "r2")]
  {
    var darUtils := new RinDARUtils();
    var added := darUtils.AddToDARData("u1", "a1", "r1");
    assert darUtils.rows == [DARData("u1", "a1", "r1")];
    var updated := darUtils.UpdateDARData("u1", "a2", "r2");
    assert darUtils.rows[0].uuid == "u1";
    found := darUtils.GetDARDataViaUUID("u1");
    UpdateThenGet([DARData("u1", "a1", "r1")], "u1", "a2", "r2");
  }
}
