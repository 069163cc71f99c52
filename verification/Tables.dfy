/** Database tables as maps from integer keys to rows: `SUM` over a column and
    `ORDER BY key LIMIT 1`. */
module Tables {

  ghost function Any<T>(s: set<T>): (x: T)
    requires s != {}
    ensures x in s
  {
    var x :| x in s;
    x
  }

  lemma {:induction false} LeastExists(keys: set<int>)
    requires keys != {}
    ensures exists k :: k in keys && forall x :: x in keys ==> k <= x
    decreases |keys|
  {
    var some := Any(keys);
    if keys == {some} {
    } else {
      var rest := keys - {some};
      LeastExists(rest);
      var least :| least in rest && forall x :: x in rest ==> least <= x;
      var k := if some < least then some else least;
      assert k in keys;
      forall x | x in keys ensures k <= x {
        assert x == some || x in rest;
      }
    }
  }

  function Least(keys: set<int>): (least: int)
    requires keys != {}
    ensures least in keys && forall x :: x in keys ==> least <= x
  {
    LeastExists(keys);
    var k :| k in keys && forall x :: x in keys ==> k <= x;
    k
  }

  /** SUM of a column. */
  function Total<V>(rows: map<int, V>, column: V -> nat): nat
    decreases |rows|
  {
    if rows == map[] then 0
    else
      var k := Least(rows.Keys);
      assert rows.Keys - {k} < rows.Keys;
      column(rows[k]) + Total(rows - {k}, column)
  }

  lemma {:induction false} TotalRemove<V>(rows: map<int, V>, key: int, column: V -> nat)
    requires key in rows
    ensures Total(rows, column) == column(rows[key]) + Total(rows - {key}, column)
    decreases |rows|
  {
    var k := Least(rows.Keys);
    if k != key {
      var rest := rows - {k};
      TotalRemove(rest, key, column);
      assert rest - {key} == rows - {key} - {k};
      assert k in (rows - {key}).Keys;
      assert Least((rows - {key}).Keys) in rows.Keys;
    }
  }

  lemma {:induction false} TotalInsert<V>(rows: map<int, V>, key: int, row: V, column: V -> nat)
    ensures Total(rows[key := row], column) == column(row) + Total(rows - {key}, column)
  {
    TotalRemove(rows[key := row], key, column);
    assert rows[key := row] - {key} == rows - {key};
  }

  lemma {:induction false} TotalSubset<V>(rows: map<int, V>, kept: map<int, V>, column: V -> nat)
    requires kept.Keys <= rows.Keys && forall k :: k in kept ==> kept[k] == rows[k]
    ensures Total(kept, column) <= Total(rows, column)
    decreases |rows|
  {
    if rows != map[] {
      var k := Least(rows.Keys);
      TotalSubset(rows - {k}, kept - {k}, column);
      if k in kept {
        TotalRemove(kept, k, column);
      } else {
        assert kept - {k} == kept;
      }
    }
  }
}
