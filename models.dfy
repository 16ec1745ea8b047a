/**
 * The row type of table `rin_dar_data` (src/rin_dar_utils/models.py): three
 * string columns with `uuid` as primary key, and the generator that lets
 * `dict(row)` rebuild a row as a dictionary.
 */
module Models {

  /** Every column is declared `String(255)`. */
  const MaxColumnLength: nat := 255

  /** The column names, in the order the row's iterator yields them. */
  const ColumnNames: seq<string> := ["uuid", "access_token", "refresh_token"]

  /** One credential row. */
  datatype DARData = DARData(uuid: string, accessToken: string, refreshToken: string)

  /** PostgreSQL cannot store the character U+0000 in a text value. */
  predicate Encodable(s: string) {
    '\0' !in s
  }

  /** The database accepts the row only if every value is encodable. */
  predicate EncodableRow(row: DARData) {
    Encodable(row.uuid) && Encodable(row.accessToken) && Encodable(row.refreshToken)
  }

  /** The database accepts the row only if every value fits its column. */
  predicate FitsColumns(row: DARData) {
    && |row.uuid| <= MaxColumnLength
    && |row.accessToken| <= MaxColumnLength
    && |row.refreshToken| <= MaxColumnLength
  }

  /** `iter(row)`: the `(name, value)` pairs the generator yields, in order. */
  function Iter(row: DARData): (pairs: seq<(string, string)>)
    ensures |pairs| == |ColumnNames|
    ensures forall i :: 0 <= i < |pairs| ==> pairs[i].0 == ColumnNames[i]
  {
    [("uuid", row.uuid), ("access_token", row.accessToken), ("refresh_token", row.refreshToken)]
  }

  /**
   * Python's `dict(pairs)`: the pairs are inserted from left to right, so a
   * later pair overwrites an earlier one with the same key.
   */
  function Dict(pairs: seq<(string, string)>): map<string, string> {
    if pairs == [] then map[]
    else
      var init, last := pairs[..|pairs| - 1], pairs[|pairs| - 1];
      Dict(init)[last.0 := last.1]
  }

  /** Appending a pair to the argument of `dict` sets that one key. */
  lemma DictAppend(pairs: seq<(string, string)>, p: (string, string))
    ensures Dict(pairs + [p]) == Dict(pairs)[p.0 := p.1]
  {
    assert (pairs + [p])[..|pairs|] == pairs;
  }

  /** In `dict(pairs)` each name in `pairs` maps to the value of its last occurrence. */
  lemma {:induction false} DictLookup(pairs: seq<(string, string)>, i: int)
    requires 0 <= i < |pairs|
    requires forall j :: i < j < |pairs| ==> pairs[j].0 != pairs[i].0
    ensures pairs[i].0 in Dict(pairs) && Dict(pairs)[pairs[i].0] == pairs[i].1
  {
    if i < |pairs| - 1 {
      var init := pairs[..|pairs| - 1];
      assert forall j :: i < j < |init| ==> init[j] == pairs[j];
      DictLookup(init, i);
    }
  }

  /** Every key of `dict(pairs)` is a name in `pairs`. */
  lemma {:induction false} DictKeyNamed(pairs: seq<(string, string)>, k: string)
    requires k in Dict(pairs)
    ensures exists j :: 0 <= j < |pairs| && pairs[j].0 == k
  {
    var init := pairs[..|pairs| - 1];
    if pairs[|pairs| - 1].0 != k {
      DictKeyNamed(init, k);
      var j :| 0 <= j < |init| && init[j].0 == k;
      assert pairs[j] == init[j];
    }
  }

  /** `dict(row)` maps each column name to that column's value, and has no other key. */
  lemma DictOfRow(row: DARData)
    ensures Dict(Iter(row)) == map["uuid" := row.uuid, "access_token" := row.accessToken,
                                   "refresh_token" := row.refreshToken]
  {
    var p1, p2, p3 := ("uuid", row.uuid), ("access_token", row.accessToken), ("refresh_token", row.refreshToken);
    DictAppend([], p1);
    DictAppend([p1], p2);
    assert [p1] + [p2] == [p1, p2];
    DictAppend([p1, p2], p3);
    assert [p1, p2] + [p3] == [p1, p2, p3] == Iter(row);
  }
}
