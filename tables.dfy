/** The database layer, reduced to what the routes observe: a table is a map
    from an auto-increment primary key to a record; `findAll({ where })`
    filters the rows (in primary-key order when the query has no ORDER BY),
    `findOne` takes the first of them, `sum` folds an attribute over them. */
module Tables {

  import opened Common

  /** A row as a query returns it: its primary key and its attributes. */
  datatype Row<R> = Row(id: int, rec: R)

  predicate IdsAscending<R>(s: seq<Row<R>>) {
    forall i, j :: 0 <= i < j < |s| ==> s[i].id < s[j].id
  }

  /** The rows whose keys lie in [lo, hi), in primary-key order. */
  function Scan<R>(m: map<int, R>, lo: int, hi: int): (s: seq<Row<R>>)
    ensures forall i :: 0 <= i < |s| ==> s[i].id in m && s[i].rec == m[s[i].id] && lo <= s[i].id < hi
    ensures IdsAscending(s)
    decreases hi - lo
  {
    if lo >= hi then []
    else if lo in m then [Row(lo, m[lo])] + Scan(m, lo + 1, hi)
    else Scan(m, lo + 1, hi)
  }

  /** Every row whose key lies in [lo, hi) appears in the scan. */
  lemma {:induction false} ScanComplete<R>(m: map<int, R>, lo: int, hi: int, k: int)
    requires k in m && lo <= k < hi
    ensures Row(k, m[k]) in Scan(m, lo, hi)
    decreases hi - lo
  {
    if lo < k {
      ScanComplete(m, lo + 1, hi, k);
    }
  }

  /** A `where` condition applied to query results, keeping their order.
      What it selects is stated by FilterMembers, kept apart so that
      formulas mentioning many filters stay cheap to check. */
  function Filter<R>(s: seq<Row<R>>, p: R -> bool): (r: seq<Row<R>>)
    ensures |r| <= |s|
  {
    if s == [] then []
    else if p(s[0].rec) then [s[0]] + Filter(s[1..], p)
    else Filter(s[1..], p)
  }

  /** A filter keeps exactly the rows that satisfy the condition. */
  lemma {:induction false} FilterMembers<R>(s: seq<Row<R>>, p: R -> bool)
    ensures forall x :: x in Filter(s, p) ==> x in s && p(x.rec)
    ensures forall x :: x in s && p(x.rec) ==> x in Filter(s, p)
  {
    if s != [] {
      FilterMembers(s[1..], p);
      assert forall x :: x in s <==> x == s[0] || x in s[1..];
    }
  }

  /** A filter keeps only rows of its input, so a lower bound on the keys carries over. */
  lemma {:induction false} FilterAbove<R>(s: seq<Row<R>>, p: R -> bool, b: int)
    requires forall i :: 0 <= i < |s| ==> b < s[i].id
    ensures forall i :: 0 <= i < |Filter(s, p)| ==> b < Filter(s, p)[i].id
  {
    if s != [] {
      var t := s[1..];
      assert forall i :: 0 <= i < |t| ==> t[i] == s[i + 1];
      FilterAbove(t, p, b);
    }
  }

  /** A filter keeps the rows in their order. */
  lemma {:induction false} FilterAscending<R>(s: seq<Row<R>>, p: R -> bool)
    requires IdsAscending(s)
    ensures IdsAscending(Filter(s, p))
  {
    if s != [] {
      var t := s[1..];
      assert forall i :: 0 <= i < |t| ==> t[i] == s[i + 1];
      FilterAscending(t, p);
      FilterAbove(t, p, s[0].id);
      var f := Filter(t, p);
      if p(s[0].rec) {
        var g := Filter(s, p);
        assert g == [s[0]] + f;
        forall i, j | 0 <= i < j < |g| ensures g[i].id < g[j].id {
          assert g[j] == f[j - 1];
          if i > 0 {
            assert g[i] == f[i - 1];
          }
        }
      }
    }
  }

  /** `rows.reduce((sum, row) => sum + amount(row), 0)`, in exact arithmetic. */
  function Sum<R>(s: seq<Row<R>>, amount: R -> real): real {
    if s == [] then 0.0 else Sum(s[..|s| - 1], amount) + amount(s[|s| - 1].rec)
  }

  /** The fold over a concatenation is the sum of the folds. */
  lemma {:induction false} SumAppend<R>(a: seq<Row<R>>, b: seq<Row<R>>, amount: R -> real)
    ensures Sum(a + b, amount) == Sum(a, amount) + Sum(b, amount)
    decreases |b|
  {
    if b != [] {
      var b' := b[..|b| - 1];
      assert (a + b)[..|a + b| - 1] == a + b';
      SumAppend(a, b', amount);
    } else {
      assert a + b == a;
    }
  }

  /** The fold taken from the front: `amount(head) + sum(tail)`. */
  lemma SumCons<R>(s: seq<Row<R>>, amount: R -> real)
    requires s != []
    ensures Sum(s, amount) == amount(s[0].rec) + Sum(s[1..], amount)
  {
    assert s == [s[0]] + s[1..];
    SumAppend([s[0]], s[1..], amount);
    assert [s[0]][..0] == [];
  }

  /** A sum of non-negative amounts is non-negative. */
  lemma {:induction false} SumNonNegative<R>(s: seq<Row<R>>, amount: R -> real)
    requires forall x :: x in s ==> amount(x.rec) >= 0.0
    ensures Sum(s, amount) >= 0.0
    decreases |s|
  {
    if s != [] {
      assert forall x :: x in s[..|s| - 1] ==> x in s;
      SumNonNegative(s[..|s| - 1], amount);
    }
  }

  /** Filtering a concatenation filters each part. */
  lemma {:induction false} FilterAppend<R>(a: seq<Row<R>>, b: seq<Row<R>>, p: R -> bool)
    ensures Filter(a + b, p) == Filter(a, p) + Filter(b, p)
    decreases |a|
  {
    if a == [] {
      assert a + b == b;
    } else {
      assert (a + b)[1..] == a[1..] + b;
      FilterAppend(a[1..], b, p);
    }
  }

  /** A condition no row meets selects nothing. */
  lemma {:induction false} FilterNone<R>(s: seq<Row<R>>, p: R -> bool)
    requires forall x :: x in s ==> !p(x.rec)
    ensures Filter(s, p) == []
  {
    if s != [] {
      assert forall x :: x in s[1..] ==> x in s;
      FilterNone(s[1..], p);
    }
  }

  /** The rows of `m` with the rows of `s` written over them, in order. */
  function WithRows<R>(m: map<int, R>, s: seq<Row<R>>): map<int, R> {
    if s == [] then m else WithRows(m, s[..|s| - 1])[s[|s| - 1].id := s[|s| - 1].rec]
  }

  /** Writing rows under fresh keys adds exactly those keys, with those records. */
  lemma {:induction false} WithRowsFresh<R>(m: map<int, R>, s: seq<Row<R>>)
    requires forall i :: 0 <= i < |s| ==> s[i].id !in m
    requires IdsAscending(s)
    ensures forall k :: k in WithRows(m, s) <==> k in m || exists i :: 0 <= i < |s| && s[i].id == k
    ensures forall k :: k in m ==> WithRows(m, s)[k] == m[k]
    ensures forall i :: 0 <= i < |s| ==> s[i].id in WithRows(m, s) && WithRows(m, s)[s[i].id] == s[i].rec
    decreases |s|
  {
    if s != [] {
      var init := s[..|s| - 1];
      assert forall i :: 0 <= i < |init| ==> init[i] == s[i];
      WithRowsFresh(m, init);
    }
  }

  /** A table of one model: its rows keyed by primary key and the next
      auto-increment value. */
  class Table<R> {
    var rows: map<int, R>
    var nextId: int

    /** Every key was handed out by the auto-increment counter. */
    ghost predicate Valid()
      reads this
    {
      1 <= nextId && forall k :: k in rows ==> 1 <= k < nextId
    }

    constructor ()
      ensures Valid() && rows == map[] && nextId == 1
    {
      rows := map[];
      nextId := 1;
    }

    /** `findAll()` without ORDER BY: every row, in primary-key order. */
    function All(): (s: seq<Row<R>>)
      reads this
      ensures forall i :: 0 <= i < |s| ==> s[i].id in rows && s[i].rec == rows[s[i].id]
      ensures IdsAscending(s)
      ensures Valid() ==> forall k :: k in rows ==> Row(k, rows[k]) in s
    {
      var s := Scan(rows, 1, nextId);
      assert Valid() ==> forall k :: k in rows ==> Row(k, rows[k]) in s by {
        if Valid() {
          forall k | k in rows ensures Row(k, rows[k]) in s {
            ScanComplete(rows, 1, nextId, k);
          }
        }
      }
      s
    }

    /** `findAll({ where })`: the rows satisfying the condition, in primary-key order. */
    function Where(p: R -> bool): (s: seq<Row<R>>)
      reads this
      ensures forall i :: 0 <= i < |s| ==> s[i].id in rows && s[i].rec == rows[s[i].id] && p(s[i].rec)
      ensures IdsAscending(s)
      ensures Valid() ==> forall k :: k in rows && p(rows[k]) ==> Row(k, rows[k]) in s
    {
      var all := All();
      var s := Filter(all, p);
      FilterMembers(all, p);
      FilterAscending(all, p);
      assert forall i :: 0 <= i < |s| ==> s[i] in s;
      assert forall x :: x in all ==> x.id in rows && x.rec == rows[x.id] by {
        forall x | x in all ensures x.id in rows && x.rec == rows[x.id] {
          var j :| 0 <= j < |all| && all[j] == x;
        }
      }
      s
    }

    /** `findOne({ where })`: the first row in primary-key order that
        satisfies the condition, or None when no row does. */
    function FindOne(p: R -> bool): (r: Option<Row<R>>)
      reads this
      requires Valid()
      ensures r.Some? ==> r.value.id in rows && r.value.rec == rows[r.value.id] && p(r.value.rec)
      ensures r.Some? ==> forall k :: k in rows && k < r.value.id ==> !p(rows[k])
      ensures r.None? <==> forall k :: k in rows ==> !p(rows[k])
    {
      var s := Where(p);
      if s == [] then
        None
      else
        assert forall k :: k in rows && p(rows[k]) ==> s[0].id <= k by {
          forall k | k in rows && p(rows[k]) ensures s[0].id <= k {
            var i :| 0 <= i < |s| && s[i] == Row(k, rows[k]);
          }
        }
        Some(s[0])
    }

    /** `Model.create(...)`: a new row under a key no row has used. */
    method Insert(r: R) returns (id: int)
      requires Valid()
      modifies this
      ensures Valid()
      ensures id == old(nextId) && id !in old(rows) && 1 <= id
      ensures forall k :: k in old(rows) ==> k < id
      ensures rows == old(rows)[id := r] && nextId == old(nextId) + 1
    {
      id := nextId;
      rows := rows[id := r];
      nextId := nextId + 1;
    }

    /** `instance.update(...)`: rewrite one existing row. */
    method Update(id: int, r: R)
      requires Valid() && id in rows
      modifies this
      ensures Valid()
      ensures rows == old(rows)[id := r] && nextId == old(nextId)
    {
      rows := rows[id := r];
    }

    /** `instance.destroy()`: remove one existing row. */
    method Destroy(id: int)
      requires Valid() && id in rows
      modifies this
      ensures Valid()
      ensures rows == old(rows) - {id} && nextId == old(nextId)
    {
      rows := rows - {id};
    }
  }
}
