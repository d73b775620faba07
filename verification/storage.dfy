/**
 * The `transactions` table: its creation (`init_db`), the INSERT, UPDATE,
 * DELETE and SELECT statements the ledger issues against it, and the id
 * counter that `INTEGER PRIMARY KEY AUTOINCREMENT` keeps.
 */
module Storage {
  import opened Records
  import opened Text

  // ---------------------------------------------------------------------
  // The table as a value
  // ---------------------------------------------------------------------

  /**
   * The rows by id, and `lastId`, the largest id ever handed out (the
   * table's entry in `sqlite_sequence`; 0 before the first insert).
   */
  datatype Table = Table(rows: map<nat, Row>, lastId: nat)

  /** Every present id was handed out earlier: it is positive and at most `lastId`. */
  predicate IdsIssued(t: Table)
  {
    forall id :: id in t.rows ==> 1 <= id <= t.lastId
  }

  /** Every present row is valid: one the corrected guard chain `Form.ValidateSubmit` accepts. */
  predicate AllRowsValid(t: Table)
  {
    forall id :: id in t.rows ==> ValidRow(t.rows[id])
  }

  /** `SELECT ... WHERE id = ?` */
  function Lookup(t: Table, id: nat): (r: Option<Row>)
    ensures r.Some? <==> id in t.rows
    ensures r.Some? ==> r.value == t.rows[id]
  {
    if id in t.rows then Some(t.rows[id]) else None
  }

  /**
   * `INSERT`: the new row gets the id after the largest one ever handed out,
   * which no present row has; no other row changes and the table grows by
   * one row.
   */
  function Inserted(t: Table, r: Row): (t': Table)
    requires IdsIssued(t)
    ensures t'.lastId == t.lastId + 1 && Lookup(t, t'.lastId) == None
    ensures Lookup(t', t'.lastId) == Some(r)
    ensures forall id :: id != t'.lastId ==> Lookup(t', id) == Lookup(t, id)
    ensures IdsIssued(t') && |t'.rows| == |t.rows| + 1
    ensures AllRowsValid(t) && ValidRow(r) ==> AllRowsValid(t')
  {
    var id := t.lastId + 1;
    Table(t.rows[id := r], id)
  }

  /**
   * `UPDATE ... WHERE id = ?`: all five columns of that row are replaced;
   * the id, every other row and the counter stay as they were. With no row
   * under `id` nothing changes.
   */
  function Updated(t: Table, id: nat, r: Row): (t': Table)
    ensures Lookup(t, id).Some? ==> Lookup(t', id) == Some(r)
    ensures Lookup(t, id).None? ==> t' == t
    ensures forall other :: other != id ==> Lookup(t', other) == Lookup(t, other)
    ensures t'.rows.Keys == t.rows.Keys && t'.lastId == t.lastId
    ensures IdsIssued(t) ==> IdsIssued(t')
    ensures AllRowsValid(t) && ValidRow(r) ==> AllRowsValid(t')
  {
    if id in t.rows then Table(t.rows[id := r], t.lastId) else t
  }

  /**
   * `DELETE ... WHERE id = ?`: afterwards no row has that id, every other
   * row and the counter stay as they were. With no row under `id` nothing
   * changes.
   */
  function Deleted(t: Table, id: nat): (t': Table)
    ensures Lookup(t', id) == None
    ensures Lookup(t, id).None? ==> t' == t
    ensures forall other :: other != id ==> Lookup(t', other) == Lookup(t, other)
    ensures t'.rows.Keys == t.rows.Keys - {id} && t'.lastId == t.lastId
    ensures IdsIssued(t) ==> IdsIssued(t')
    ensures AllRowsValid(t) ==> AllRowsValid(t')
  {
    Table(t.rows - {id}, t.lastId)
  }

  // ---------------------------------------------------------------------
  // Sequences of statements: how ids are handed out over time
  // ---------------------------------------------------------------------

  datatype Statement = Insert(row: Row) | Update(id: nat, row: Row) | Delete(id: nat)

  function Execute(t: Table, s: Statement): Table
    requires IdsIssued(t)
  {
    match s
    case Insert(r) => Inserted(t, r)
    case Update(id, r) => Updated(t, id, r)
    case Delete(id) => Deleted(t, id)
  }

  /** The table after running the statements in order, with the ids the inserts received, in order. */
  function Run(t: Table, ss: seq<Statement>): (Table, seq<nat>)
    requires IdsIssued(t)
    decreases |ss|
  {
    if ss == [] then (t, [])
    else
      var t1 := Execute(t, ss[0]);
      var newIds := if ss[0].Insert? then [t1.lastId] else [];
      var rest := Run(t1, ss[1..]);
      (rest.0, newIds + rest.1)
  }

  /** A statement that writes a row writes a valid one, as the corrected guard chain `Form.ValidateSubmit` accepts. */
  predicate WritesValidRow(s: Statement)
  {
    s.Insert? || s.Update? ==> ValidRow(s.row)
  }

  /**
   * Ids are handed out in strictly increasing order, each above every id
   * handed out before the run started, so an id is never reused, not even
   * after its row was deleted. The counter ends at or above all of them.
   */
  lemma {:induction false} IdsStrictlyIncrease(t: Table, ss: seq<Statement>)
    requires IdsIssued(t)
    ensures var tn, ids := Run(t, ss).0, Run(t, ss).1;
      && IdsIssued(tn) && t.lastId <= tn.lastId
      && (forall i :: 0 <= i < |ids| ==> t.lastId < ids[i] <= tn.lastId)
      && (forall i, j :: 0 <= i < j < |ids| ==> ids[i] < ids[j])
    decreases |ss|
  {
    if ss != [] {
      var t1 := Execute(t, ss[0]);
      IdsStrictlyIncrease(t1, ss[1..]);
    }
  }

  /** Starting from valid rows, statements that only write valid rows leave only valid rows. */
  lemma {:induction false} ValidRowsPreserved(t: Table, ss: seq<Statement>)
    requires IdsIssued(t) && AllRowsValid(t)
    requires forall i :: 0 <= i < |ss| ==> WritesValidRow(ss[i])
    ensures AllRowsValid(Run(t, ss).0)
    decreases |ss|
  {
    if ss != [] {
      assert WritesValidRow(ss[0]);
      ValidRowsPreserved(Execute(t, ss[0]), ss[1..]);
    }
  }

  // ---------------------------------------------------------------------
  // SELECT ... ORDER BY date ASC
  // ---------------------------------------------------------------------

  /** Non-decreasing in the date text; rows with equal dates may come in any order. */
  predicate SortedByDate(s: seq<Entry>)
  {
    forall i, j :: 0 <= i < j < |s| ==> TextLe(s[i].row.date, s[j].row.date)
  }

  ghost function EntriesOf(rows: map<nat, Row>, ids: set<nat>): set<Entry>
  {
    set id | id in ids && id in rows :: Entry(id, rows[id])
  }

  /** Each row of the table, paired with its id, once. */
  ghost function EntryBag(rows: map<nat, Row>): multiset<Entry>
  {
    multiset(EntriesOf(rows, rows.Keys))
  }

  /** A result of `SELECT id, ... FROM transactions ORDER BY date ASC`. */
  ghost predicate IsListing(s: seq<Entry>, rows: map<nat, Row>)
  {
    SortedByDate(s) && multiset(s) == EntryBag(rows)
  }

  /** Places `e` into a date-sorted sequence before the first entry it does not follow. */
  function InsertByDate(s: seq<Entry>, e: Entry): (r: seq<Entry>)
    ensures multiset(r) == multiset(s) + multiset{e}
  {
    if s == [] then [e]
    else if TextLe(e.row.date, s[0].row.date) then [e] + s
    else
      assert s == [s[0]] + s[1..];
      [s[0]] + InsertByDate(s[1..], e)
  }

  /** Putting an entry that no later entry precedes in front of a sorted sequence keeps it sorted. */
  lemma SortedCons(x: Entry, s: seq<Entry>)
    requires SortedByDate(s)
    requires forall j :: 0 <= j < |s| ==> TextLe(x.row.date, s[j].row.date)
    ensures SortedByDate([x] + s)
  {
    var r := [x] + s;
    forall i, j | 0 <= i < j < |r| ensures TextLe(r[i].row.date, r[j].row.date) {
      if i > 0 {
        assert r[i] == s[i - 1] && r[j] == s[j - 1];
      }
    }
  }

  /** Inserting into a date-sorted sequence keeps it sorted by date. */
  lemma {:induction false} InsertByDateKeepsOrder(s: seq<Entry>, e: Entry)
    requires SortedByDate(s)
    ensures SortedByDate(InsertByDate(s, e))
  {
    if s == [] {
    } else if TextLe(e.row.date, s[0].row.date) {
      forall j | 0 <= j < |s| ensures TextLe(e.row.date, s[j].row.date) {
        if j > 0 {
          TextLeTransitive(e.row.date, s[0].row.date, s[j].row.date);
        }
      }
      SortedCons(e, s);
    } else {
      var rest := InsertByDate(s[1..], e);
      InsertByDateKeepsOrder(s[1..], e);
      TextLeTotal(e.row.date, s[0].row.date);
      forall j | 0 <= j < |rest| ensures TextLe(s[0].row.date, rest[j].row.date) {
        assert rest[j] in multiset(rest);
        if rest[j] != e {
          assert rest[j] in multiset(s[1..]);
          var k :| 0 <= k < |s[1..]| && s[1..][k] == rest[j];
          assert s[k + 1] == rest[j];
        }
      }
      SortedCons(s[0], rest);
    }
  }

  /** Every entry of a listing is a row of the table under its id, and every row of the table is in the listing. */
  lemma ListingMembers(s: seq<Entry>, rows: map<nat, Row>)
    requires IsListing(s, rows)
    ensures forall i :: 0 <= i < |s| ==> s[i].id in rows && rows[s[i].id] == s[i].row
    ensures forall id :: id in rows ==> Entry(id, rows[id]) in s
  {
    forall i | 0 <= i < |s| ensures s[i].id in rows && rows[s[i].id] == s[i].row {
      assert s[i] in multiset(s);
      assert s[i] in EntriesOf(rows, rows.Keys);
    }
    forall id | id in rows ensures Entry(id, rows[id]) in s {
      assert Entry(id, rows[id]) in EntriesOf(rows, rows.Keys);
      assert Entry(id, rows[id]) in multiset(s);
    }
  }

  /** The listing is empty exactly when the table is. */
  lemma ListingEmptyIff(s: seq<Entry>, rows: map<nat, Row>)
    requires IsListing(s, rows)
    ensures s == [] <==> rows == map[]
  {
    ListingMembers(s, rows);
    if rows != map[] {
      var id :| id in rows;
      assert Entry(id, rows[id]) in s;
    }
    if s != [] {
      assert s[0].id in rows;
    }
  }

  /** The first entry of a listing has a date no later, in text order, than every row of the table. */
  lemma FirstIsEarliest(s: seq<Entry>, rows: map<nat, Row>)
    requires IsListing(s, rows) && s != []
    ensures forall id :: id in rows ==> TextLe(s[0].row.date, rows[id].date)
  {
    ListingMembers(s, rows);
    forall id | id in rows ensures TextLe(s[0].row.date, rows[id].date) {
      var j :| 0 <= j < |s| && s[j] == Entry(id, rows[id]);
      if j == 0 {
        TextLeReflexive(s[0].row.date);
      }
    }
  }

  // ---------------------------------------------------------------------
  // The database file
  // ---------------------------------------------------------------------

  /** The database file `finance.db`, with or without the `transactions` table. */
  class Database {
    var hasTable: bool
    var rows: map<nat, Row>
    var lastId: nat

    ghost predicate Valid()
      reads this
    {
      IdsIssued(State()) && (!hasTable ==> rows == map[] && lastId == 0)
    }

    function State(): Table
      reads this
    {
      Table(rows, lastId)
    }

    /** A database file that does not exist yet: connecting creates it empty. */
    constructor Fresh()
      ensures Valid() && !hasTable && State() == Table(map[], 0)
    {
      hasTable, rows, lastId := false, map[], 0;
    }

    /** A database file left by an earlier run, already holding the table. */
    constructor Existing(t: Table)
      requires IdsIssued(t)
      ensures Valid() && hasTable && State() == t
    {
      hasTable, rows, lastId := true, t.rows, t.lastId;
    }

    /**
     * `init_db`: `CREATE TABLE IF NOT EXISTS`. A missing table is created
     * empty with its counter at 0; an existing one keeps every row and its
     * counter.
     */
    method InitDb()
      requires Valid()
      modifies this
      ensures Valid() && hasTable
      ensures old(hasTable) ==> State() == old(State())
      ensures !old(hasTable) ==> State() == Table(map[], 0)
    {
      if !hasTable {
        hasTable := true;
        rows, lastId := map[], 0;
      }
    }

    /** The INSERT of `add_transaction`; returns the id the row received. */
    method Insert(r: Row) returns (id: nat)
      requires Valid() && hasTable
      modifies this
      ensures Valid() && hasTable
      ensures State() == Inserted(old(State()), r) && id == lastId
    {
      id := lastId + 1;
      rows := rows[id := r];
      lastId := id;
    }

    /** The UPDATE of `edit_transaction`. */
    method Update(id: nat, r: Row)
      requires Valid() && hasTable
      modifies this
      ensures Valid() && hasTable
      ensures State() == Updated(old(State()), id, r)
    {
      if id in rows {
        rows := rows[id := r];
      }
    }

    /** The DELETE of `delete_transaction`. */
    method Delete(id: nat)
      requires Valid() && hasTable
      modifies this
      ensures Valid() && hasTable
      ensures State() == Deleted(old(State()), id)
    {
      rows := rows - {id};
    }

    /** The SELECT by id of `edit_transaction`. */
    method SelectById(id: nat) returns (row: Option<Row>)
      requires hasTable
      ensures row.Some? <==> id in rows
      ensures row.Some? ==> row.value == rows[id]
    {
      row := if id in rows then Some(rows[id]) else None;
    }

    /** The SELECT of `load_transactions`: every row once, with its id, non-decreasing by date text. */
    method SelectAllByDate() returns (listing: seq<Entry>)
      requires hasTable
      ensures IsListing(listing, rows)
    {
      listing := [];
      var pending := rows.Keys;
      while pending != {}
        invariant pending <= rows.Keys
        invariant SortedByDate(listing)
        invariant multiset(listing) == multiset(EntriesOf(rows, rows.Keys - pending))
        decreases pending
      {
        var id :| id in pending;
        var e := Entry(id, rows[id]);
        ghost var before := EntriesOf(rows, rows.Keys - pending);
        InsertByDateKeepsOrder(listing, e);
        listing := InsertByDate(listing, e);
        pending := pending - {id};
        assert EntriesOf(rows, rows.Keys - pending) == before + {e};
        assert e !in before;
      }
      assert rows.Keys - pending == rows.Keys;
    }
  }
}
