/** An SQLite table with an `INTEGER PRIMARY KEY AUTOINCREMENT` column: rows
    keyed by id, and the largest id ever handed out (SQLite keeps it in
    `sqlite_sequence`), so that a fresh id is never one used before, even
    after deletions. */
module Tables {

  /** A row as `SELECT *` returns it: its id beside the stored record. */
  datatype Row<R> = Row(id: nat, rec: R)

  datatype Table<R> = Table(rows: map<nat, R>, last: nat) {

    /** Every stored id was handed out: it lies in 1..last. */
    predicate Valid() {
      forall id :: id in rows ==> 1 <= id <= last
    }
  }

  /** INSERT: stores `r` under a fresh id and reports that id (`this.lastID`):
      AUTOINCREMENT takes one more than the largest id ever handed out. */
  function Insert<R>(t: Table<R>, r: R): (res: (Table<R>, nat))
    requires t.Valid()
    ensures res.0.Valid()
    ensures res.1 !in t.rows && res.1 > t.last
    ensures res.0.rows == t.rows[res.1 := r]
    ensures res.0.last == res.1
  {
    var id := t.last + 1;
    (Table(t.rows[id := r], id), id)
  }

  /** DELETE of one row; the counter keeps its value, so the id is not reused. */
  function Remove<R>(t: Table<R>, id: nat): (t': Table<R>)
    requires t.Valid()
    ensures t'.Valid() && t'.last == t.last
    ensures t'.rows.Keys == t.rows.Keys - {id}
    ensures forall k :: k in t'.rows ==> t'.rows[k] == t.rows[k]
  {
    Table(t.rows - {id}, t.last)
  }

  function Empty<R>(): (t: Table<R>)
    ensures t.Valid() && |t.rows| == 0
  {
    Table(map[], 0)
  }

  /** True when the ids of `rs` strictly increase. */
  predicate Ascending<R>(rs: seq<Row<R>>) {
    forall i, j :: 0 <= i < j < |rs| ==> rs[i].id < rs[j].id
  }

  /** The entries of `m` with ids in 1..n, as rows in ascending id order: the
      order in which SQLite scans a rowid table. */
  function Listing<R>(m: map<nat, R>, n: nat): (rs: seq<Row<R>>)
    ensures forall i :: 0 <= i < |rs| ==> rs[i].id in m && m[rs[i].id] == rs[i].rec && 1 <= rs[i].id <= n
    ensures forall id :: id in m && 1 <= id <= n ==> Row(id, m[id]) in rs
    ensures Ascending(rs)
  {
    if n == 0 then []
    else
      var prefix := Listing(m, n - 1);
      if n in m then prefix + [Row(n, m[n])] else prefix
  }

  /** When every key of `m` is in 1..n, the listing holds exactly the
      entries of `m`: a row is listed iff it is stored. */
  lemma ListingExact<R>(m: map<nat, R>, n: nat)
    requires forall id :: id in m ==> 1 <= id <= n
    ensures forall row :: row in Listing(m, n) <==> row.id in m && m[row.id] == row.rec
  {
    forall row: Row<R> | row.id in m && m[row.id] == row.rec
      ensures row in Listing(m, n)
    {
      assert row == Row(row.id, m[row.id]);
    }
  }

  /** The first row of a non-empty listing is one of its rows. */
  lemma HeadListed<R>(a: seq<Row<R>>)
    requires |a| > 0
    ensures a[0] in a
  {
  }

  /** Two ascending listings with the same rows are the same listing: a
      listing is fixed by the set of rows it holds. */
  lemma {:induction false} AscendingUnique<R>(a: seq<Row<R>>, b: seq<Row<R>>)
    requires Ascending(a) && Ascending(b)
    requires forall row :: row in a <==> row in b
    ensures a == b
  {
    if |a| == 0 || |b| == 0 {
      if |a| > 0 {
        HeadListed(a);
        assert false;
      } else if |b| > 0 {
        HeadListed(b);
        assert false;
      }
    } else {
      assert a[0] in b;
      assert |b| > 0;
      assert b[0] in a;
      var i :| 0 <= i < |a| && a[i] == b[0];
      var j :| 0 <= j < |b| && b[j] == a[0];
      assert i == 0 && j == 0 by {
        assert a[0].id <= a[i].id == b[0].id <= b[j].id == a[0].id;
      }
      forall row
        ensures row in a[1..] <==> row in b[1..]
      {
        if row in a[1..] {
          var k :| 0 <= k < |a| - 1 && a[1..][k] == row;
          assert a[k + 1].id > a[0].id;
          assert a[k + 1] == row && row in a && row in b;
          var l :| 0 <= l < |b| && b[l] == row;
          assert l != 0;
          assert b[1..][l - 1] == row;
        }
        if row in b[1..] {
          var k :| 0 <= k < |b| - 1 && b[1..][k] == row;
          assert b[k + 1].id > b[0].id;
          assert b[k + 1] == row && row in b && row in a;
          var l :| 0 <= l < |a| && a[l] == row;
          assert l != 0;
          assert a[1..][l - 1] == row;
        }
      }
      AscendingUnique(a[1..], b[1..]);
      assert a == [a[0]] + a[1..];
      assert b == [b[0]] + b[1..];
    }
  }
}
