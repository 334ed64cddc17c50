/** The table of worktree records, its queries and its updates. */
module RecordTable {
  import opened Paths
  import opened Wrappers
  import opened GcRules

  function Listing(rows: seq<Record>, alive: bool): seq<Record> {
    if rows == [] then []
    else
      var last := rows[|rows| - 1];
      Listing(rows[..|rows| - 1], alive) + (if last.alive == alive then [last] else [])
  }

  function Without(rows: seq<Record>, id: Id): seq<Record> {
    if rows == [] then []
    else
      var last := rows[|rows| - 1];
      Without(rows[..|rows| - 1], id) + (if last.id == id then [] else [last])
  }

  function WithoutPath(rows: seq<Record>, path: Path): seq<Record> {
    if rows == [] then []
    else
      var last := rows[|rows| - 1];
      WithoutPath(rows[..|rows| - 1], path) + (if last.path == path then [] else [last])
  }

  function MarkedDead(rows: seq<Record>, id: Id): seq<Record> {
    if rows == [] then []
    else
      var last := rows[|rows| - 1];
      MarkedDead(rows[..|rows| - 1], id) + [if last.id == id then last.(alive := false) else last]
  }

  function ById(rows: seq<Record>, id: Id): Option<Record> {
    if rows == [] then None
    else if rows[|rows| - 1].id == id then Some(rows[|rows| - 1])
    else ById(rows[..|rows| - 1], id)
  }

  /** Ids and paths are unique, as the table's keys demand. */
  ghost predicate Unique(rows: seq<Record>) {
    forall i, j :: 0 <= i < j < |rows| ==> rows[i].id != rows[j].id && rows[i].path != rows[j].path
  }

  /** The keys of `last` are in none of the rows. */
  ghost predicate Fresh(rows: seq<Record>, last: Record) {
    forall r :: r in rows ==> r.id != last.id && r.path != last.path
  }

  lemma UniqueSnoc(rows: seq<Record>, last: Record)
    ensures Unique(rows + [last]) <==> Unique(rows) && Fresh(rows, last)
  {
    var all := rows + [last];
    if Unique(all) {
      forall r | r in rows ensures r.id != last.id && r.path != last.path {
        var i :| 0 <= i < |rows| && rows[i] == r;
        assert all[i] == r && all[|rows|] == last;
      }
      forall i, j | 0 <= i < j < |rows| ensures rows[i].id != rows[j].id && rows[i].path != rows[j].path {
        assert all[i] == rows[i] && all[j] == rows[j];
      }
    }
  }

  lemma {:induction false} WithoutMeans(rows: seq<Record>, id: Id)
    ensures forall r :: r in Without(rows, id) <==> r in rows && r.id != id
    ensures Unique(rows) ==> Unique(Without(rows, id))
  {
    if rows != [] {
      hide Unique;
      var front, last := rows[..|rows| - 1], rows[|rows| - 1];
      assert rows == front + [last];
      WithoutMeans(front, id);
      UniqueSnoc(front, last);
      UniqueSnoc(Without(front, id), last);
    }
  }

  lemma {:induction false} WithoutPathMeans(rows: seq<Record>, path: Path)
    ensures forall r :: r in WithoutPath(rows, path) <==> r in rows && r.path != path
    ensures Unique(rows) ==> Unique(WithoutPath(rows, path))
  {
    if rows != [] {
      hide Unique;
      var front, last := rows[..|rows| - 1], rows[|rows| - 1];
      assert rows == front + [last];
      WithoutPathMeans(front, path);
      UniqueSnoc(front, last);
      UniqueSnoc(WithoutPath(front, path), last);
    }
  }

  lemma {:induction false} ListingMeans(rows: seq<Record>, alive: bool)
    ensures forall r :: r in Listing(rows, alive) <==> r in rows && r.alive == alive
    ensures Unique(rows) ==> Unique(Listing(rows, alive))
  {
    if rows != [] {
      ListingMeans(rows[..|rows| - 1], alive);
      assert forall r :: r in rows <==> r in rows[..|rows| - 1] || r == rows[|rows| - 1];
      var kept := Listing(rows[..|rows| - 1], alive);
      assert forall i :: 0 <= i < |kept| ==> kept[i] in kept;
    }
  }

  lemma {:induction false} ByIdFinds(rows: seq<Record>, rec: Record)
    requires Unique(rows) && rec in rows
    ensures ById(rows, rec.id) == Some(rec)
  {
    if rows[|rows| - 1] != rec {
      var i :| 0 <= i < |rows| && rows[i] == rec;
      assert rows[..|rows| - 1][i] == rec;
      ByIdFinds(rows[..|rows| - 1], rec);
    }
  }

  lemma {:induction false} ByIdMeans(rows: seq<Record>, id: Id)
    ensures ById(rows, id).Some? ==> ById(rows, id).value in rows && ById(rows, id).value.id == id
  {
    if rows != [] && rows[|rows| - 1].id != id {
      ByIdMeans(rows[..|rows| - 1], id);
    }
  }

  lemma {:induction false} WithoutShorter(rows: seq<Record>, id: Id)
    ensures |Without(rows, id)| <= |rows|
    ensures (exists r :: r in rows && r.id == id) ==> |Without(rows, id)| < |rows|
  {
    if rows != [] {
      WithoutShorter(rows[..|rows| - 1], id);
      assert forall r :: r in rows <==> r in rows[..|rows| - 1] || r == rows[|rows| - 1];
    }
  }

  lemma WithoutLast(rows: seq<Record>, id: Id)
    requires rows != []
    ensures Without(rows, id) ==
      Without(rows[..|rows| - 1], id) + if rows[|rows| - 1].id == id then [] else [rows[|rows| - 1]]
  {
  }

  lemma {:induction false} WithoutNone(rows: seq<Record>, id: Id)
    requires forall r :: r in rows ==> r.id != id
    ensures Without(rows, id) == rows
  {
    hide Without;
    if rows == [] {
      assert |Without(rows, id)| == 0 by {
        WithoutShorter(rows, id);
      }
    } else {
      WithoutNone(rows[..|rows| - 1], id);
      WithoutLast(rows, id);
      assert rows[|rows| - 1] in rows;
    }
  }

  lemma {:induction false} WithoutFirst(first: Record, rest: seq<Record>)
    requires Unique([first] + rest)
    ensures Without([first] + rest, first.id) == rest
  {
    var rows := [first] + rest;
    if rest == [] {
      assert rows[..0] == [];
    } else {
      var front := rest[..|rest| - 1];
      assert rows[..|rows| - 1] == [first] + front;
      assert forall i :: 0 <= i < |rows| - 1 ==> ([first] + front)[i] == rows[i];
      WithoutFirst(first, front);
      assert rows[0] == first && rows[|rows| - 1] == rest[|rest| - 1];
      assert rest == front + [rest[|rest| - 1]];
    }
  }

  lemma {:induction false} ListingWithout(rows: seq<Record>, id: Id, alive: bool)
    ensures Listing(Without(rows, id), alive) == Without(Listing(rows, alive), id)
  {
    if rows != [] {
      var front, last := rows[..|rows| - 1], rows[|rows| - 1];
      ListingWithout(front, id, alive);
      ListingSnoc(Without(front, id), last, alive);
      WithoutSnoc(Listing(front, alive), last, id);
      assert Without(front, id) + [] == Without(front, id);
      assert Listing(front, alive) + [] == Listing(front, alive);
    }
  }

  lemma ListingSnoc(rows: seq<Record>, last: Record, alive: bool)
    ensures Listing(rows + [last], alive) == Listing(rows, alive) + (if last.alive == alive then [last] else [])
  {
    assert (rows + [last])[..|rows|] == rows;
  }

  lemma WithoutSnoc(rows: seq<Record>, last: Record, id: Id)
    ensures Without(rows + [last], id) == Without(rows, id) + (if last.id == id then [] else [last])
  {
    assert (rows + [last])[..|rows|] == rows;
  }

  lemma {:induction false} MarkedAt(rows: seq<Record>, id: Id)
    ensures |MarkedDead(rows, id)| == |rows|
    ensures forall i :: 0 <= i < |rows| ==>
      MarkedDead(rows, id)[i] == if rows[i].id == id then rows[i].(alive := false) else rows[i]
  {
    if rows != [] {
      MarkedAt(rows[..|rows| - 1], id);
    }
  }
}
