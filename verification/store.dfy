/** A database table with a SERIAL primary key, as the handlers use it:
    rows by id, and the next id the sequence will hand out. */
module Store {
  import opened Wrappers

  datatype Table<R> = Table(rows: map<nat, R>, nextId: nat)

  /** Every stored id was handed out by the sequence already. */
  predicate Valid<R>(t: Table<R>) {
    forall id :: id in t.rows ==> id < t.nextId
  }

  /** `INSERT`: the row gets the next id; no existing row changes. */
  function Insert<R>(t: Table<R>, r: R): (res: Table<R>)
    ensures t.nextId in res.rows && res.rows[t.nextId] == r
    ensures res.nextId == t.nextId + 1
    ensures Valid(t) ==> Valid(res) && t.nextId !in t.rows && res.rows - {t.nextId} == t.rows
  {
    Table(t.rows[t.nextId := r], t.nextId + 1)
  }

  /** `DELETE ... WHERE id = $1`: that row goes, if it is there, and
      nothing else changes. */
  function Delete<R>(t: Table<R>, id: nat): (res: Table<R>)
    ensures id !in res.rows && res.nextId == t.nextId
    ensures forall k :: k != id ==> (k in res.rows <==> k in t.rows)
    ensures forall k :: k in res.rows ==> res.rows[k] == t.rows[k]
  {
    Table(t.rows - {id}, t.nextId)
  }

  /** `UPDATE ... WHERE id = $1` writing `r`: no row is affected when
      the id is absent. */
  function Update<R>(t: Table<R>, id: nat, r: R): (res: Table<R>)
    ensures res.rows.Keys == t.rows.Keys && res.nextId == t.nextId
    ensures id in t.rows ==> res.rows[id] == r
    ensures forall k :: k in t.rows && k != id ==> res.rows[k] == t.rows[k]
  {
    if id in t.rows then Table(t.rows[id := r], t.nextId) else t
  }

  /** `SELECT * ... WHERE id = $1`: the row with that id, if any. */
  function Lookup<R>(t: Table<R>, id: nat): (r: Option<R>)
    ensures r.Some? <==> id in t.rows
    ensures r.Some? ==> r.value == t.rows[id]
  {
    if id in t.rows then Some(t.rows[id]) else None
  }

  /** A set holding `x` has a least element, reached by descending from
      `x` through smaller elements. */
  lemma {:induction false} LeastFrom(s: set<nat>, x: nat)
    requires x in s
    ensures exists m :: m in s && forall k :: k in s ==> m <= k
    decreases x
  {
    if exists y :: y in s && y < x {
      var y :| y in s && y < x;
      LeastFrom(s, y);
    } else {
      assert forall k :: k in s ==> x <= k;
    }
  }

  /** The least element of a non-empty set of ids. */
  function Least(s: set<nat>): (m: nat)
    requires s != {}
    ensures m in s && forall k :: k in s ==> m <= k
  {
    var x :| x in s;
    LeastFrom(s, x);
    var m :| m in s && forall k :: k in s ==> m <= k;
    m
  }

  /** `rows[0]` of a `SELECT ... WHERE` on a non-key column: the matching
      row with the least id (the database promises no order, so this
      fixes one). */
  function FindFirst<R>(t: Table<R>, p: R -> bool): (r: Option<nat>)
    ensures r.None? <==> forall id :: id in t.rows ==> !p(t.rows[id])
    ensures r.Some? ==> r.value in t.rows && p(t.rows[r.value])
    ensures r.Some? ==> forall id :: id in t.rows && p(t.rows[id]) ==> r.value <= id
  {
    var ids := set id | id in t.rows && p(t.rows[id]);
    assert forall id :: id in t.rows && p(t.rows[id]) ==> id in ids;
    if ids == {} then None else Some(Least(ids))
  }

  /** A match that is the only one is the one found. */
  lemma FindOnly<R>(t: Table<R>, p: R -> bool, id: nat)
    requires id in t.rows && p(t.rows[id])
    requires forall k :: k in t.rows && k != id ==> !p(t.rows[k])
    ensures FindFirst(t, p) == Some(id)
  {
  }
}
