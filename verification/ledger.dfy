/**
 * The main window's ledger logic (`FinanceTracker`): the balance, "tracked
 * since" date and sign arrow computed by `load_transactions`, and the add,
 * edit, delete and search actions, each followed by a reload.
 */
module Ledger {
  import opened Records
  import opened Text
  import opened Storage
  import opened Search

  /**
   * `ttype.lower() == "income"`: the type spells "income" in any mix of
   * cases; every other type counts as an expense.
   */
  function IsIncome(ttype: string): (b: bool)
    ensures b <==>
      |ttype| == 6 && forall i :: 0 <= i < 6 ==> ttype[i] == "income"[i] || ttype[i] == "INCOME"[i]
  {
    Lower(ttype) == "income"
  }

  /** Sum of the amounts of the entries that are income (`income`) or that are not (`!income`). */
  function AmountTotal(s: seq<Entry>, income: bool): int
  {
    if s == [] then 0
    else (if IsIncome(s[0].row.ttype) == income then s[0].row.amount else 0) + AmountTotal(s[1..], income)
  }

  lemma {:induction false} AmountTotalAppend(a: seq<Entry>, b: seq<Entry>, income: bool)
    ensures AmountTotal(a + b, income) == AmountTotal(a, income) + AmountTotal(b, income)
  {
    if a == [] {
      assert a + b == b;
    } else {
      assert (a + b)[1..] == a[1..] + b;
      AmountTotalAppend(a[1..], b, income);
    }
  }

  /** Totals do not depend on the order of the entries. */
  lemma {:induction false} AmountTotalPermutation(s: seq<Entry>, t: seq<Entry>, income: bool)
    requires multiset(s) == multiset(t)
    ensures AmountTotal(s, income) == AmountTotal(t, income)
    decreases |s|
  {
    if s == [] {
      assert |t| == |multiset(t)| == 0;
    } else {
      var x := s[0];
      assert x in multiset(t);
      var j :| 0 <= j < |t| && t[j] == x;
      var rest := t[..j] + t[j + 1..];
      assert t == t[..j] + ([x] + t[j + 1..]);
      assert multiset(t) == multiset(t[..j]) + multiset{x} + multiset(t[j + 1..]);
      assert multiset(rest) == multiset(t[..j]) + multiset(t[j + 1..]);
      assert s == [x] + s[1..];
      assert multiset(s) == multiset{x} + multiset(s[1..]);
      assert multiset(s[1..]) == multiset(s) - multiset{x};
      assert multiset(rest) == multiset(t) - multiset{x};
      AmountTotalPermutation(s[1..], rest, income);
      AmountTotalAppend(t[..j], [x] + t[j + 1..], income);
      AmountTotalAppend([x], t[j + 1..], income);
      AmountTotalAppend(t[..j], t[j + 1..], income);
    }
  }

  /** The arrow after the balance: up when positive, down when negative, none at zero. */
  function Arrow(balance: int): (a: string)
    ensures a == "▲" <==> balance > 0
    ensures a == "▼" <==> balance < 0
    ensures a == "" <==> balance == 0
  {
    if balance > 0 then "▲" else if balance < 0 then "▼" else ""
  }

  /** The header `load_transactions` shows: balance in cents, "Tracked Since" date (None: left blank) and arrow. */
  datatype Summary = Summary(balance: int, trackedSince: Option<string>, arrow: string)

  /**
   * The header for a listing: income minus everything else, the first listed
   * date, and the balance's arrow. An empty listing shows 0.00, no date and
   * no arrow; otherwise the date is always shown.
   */
  function SummaryOf(listing: seq<Entry>): (h: Summary)
    ensures listing == [] ==> h == Summary(0, None, "")
    ensures h.trackedSince.Some? <==> listing != []
    ensures h.arrow == "▲" <==> h.balance > 0
    ensures h.arrow == "▼" <==> h.balance < 0
  {
    var balance := AmountTotal(listing, true) - AmountTotal(listing, false);
    Summary(balance, if listing == [] then None else Some(listing[0].row.date), Arrow(balance))
  }

  /** The loop of `load_transactions`: an empty listing shows 0.00 and no date; otherwise each row adds or subtracts its amount. */
  method Summarize(listing: seq<Entry>) returns (summary: Summary)
    ensures summary == SummaryOf(listing)
  {
    if listing == [] {
      summary := Summary(0, None, "");
      return;
    }
    var balance := 0;
    var trackedSince := listing[0].row.date;
    for i := 0 to |listing|
      invariant balance == AmountTotal(listing[..i], true) - AmountTotal(listing[..i], false)
    {
      var row := listing[i].row;
      if IsIncome(row.ttype) {
        balance := balance + row.amount;
      } else {
        balance := balance - row.amount;
      }
      assert listing[..i + 1] == listing[..i] + [listing[i]];
      AmountTotalAppend(listing[..i], [listing[i]], true);
      AmountTotalAppend(listing[..i], [listing[i]], false);
    }
    assert listing[..|listing|] == listing;
    summary := Summary(balance, Some(trackedSince), Arrow(balance));
  }

  /**
   * For any listing of a table: an empty table shows 0.00, no date and no
   * arrow; otherwise "tracked since" is the date of one of its rows, and no
   * row has an earlier date text.
   */
  lemma SummaryOfListing(s: seq<Entry>, rows: map<nat, Row>)
    requires IsListing(s, rows)
    ensures rows == map[] ==> SummaryOf(s) == Summary(0, None, "")
    ensures rows != map[] ==>
      && SummaryOf(s).trackedSince.Some?
      && (exists id :: id in rows && rows[id].date == SummaryOf(s).trackedSince.value)
      && (forall id :: id in rows ==> TextLe(SummaryOf(s).trackedSince.value, rows[id].date))
  {
    ListingEmptyIff(s, rows);
    if rows != map[] {
      ListingMembers(s, rows);
      FirstIsEarliest(s, rows);
      assert s[0].id in rows && rows[s[0].id].date == s[0].row.date;
    }
  }

  /**
   * Rows with equal dates come back in no fixed order, but the header does
   * not depend on it: any two listings of the same table give the same
   * balance, date and arrow.
   */
  lemma SummaryIndependentOfTieOrder(s: seq<Entry>, t: seq<Entry>, rows: map<nat, Row>)
    requires IsListing(s, rows) && IsListing(t, rows)
    ensures SummaryOf(s) == SummaryOf(t)
  {
    AmountTotalPermutation(s, t, true);
    AmountTotalPermutation(s, t, false);
    ListingEmptyIff(s, rows);
    ListingEmptyIff(t, rows);
    if rows != map[] {
      ListingMembers(s, rows);
      ListingMembers(t, rows);
      FirstIsEarliest(s, rows);
      FirstIsEarliest(t, rows);
      TextLeAntisymmetric(s[0].row.date, t[0].row.date);
    }
  }

  /** The main window, reduced to its database and the rows and header it shows. */
  class FinanceTracker {
    const db: Database
    var shown: seq<Entry>
    var summary: Summary

    /** The table shows a listing of the database, and the header is that listing's summary. */
    ghost predicate Valid()
      reads this, db
    {
      db.Valid() && db.hasTable && IsListing(shown, db.rows) && summary == SummaryOf(shown)
    }

    /** The window is built after `init_db` and loads the rows at once. */
    constructor (db: Database)
      requires db.Valid() && db.hasTable
      ensures Valid() && this.db == db
    {
      this.db := db;
      var listing := db.SelectAllByDate();
      var header := Summarize(listing);
      shown, summary := listing, header;
    }

    /** `load_transactions`: re-read every row and recompute the header. */
    method LoadTransactions()
      requires db.Valid() && db.hasTable
      modifies this
      ensures Valid()
    {
      shown := db.SelectAllByDate();
      summary := Summarize(shown);
    }

    /** `add_transaction`: insert the form's row, then reload. */
    method AddTransaction(data: Row) returns (id: nat)
      requires Valid()
      modifies this, db
      ensures Valid()
      ensures db.State() == Inserted(old(db.State()), data) && id == db.lastId
    {
      id := db.Insert(data);
      LoadTransactions();
    }

    /**
     * `edit_transaction`: look the row up; when it is gone, warn and change
     * nothing. Otherwise, if the pre-filled form was submitted (`submitted`
     * is its accepted row), overwrite the row and reload; if it was
     * cancelled, change nothing.
     */
    method EditTransaction(id: nat, submitted: Option<Row>) returns (found: bool)
      requires Valid()
      modifies this, db
      ensures Valid()
      ensures found <==> id in old(db.rows)
      ensures db.State() == if found && submitted.Some? then Updated(old(db.State()), id, submitted.value) else old(db.State())
      ensures !(found && submitted.Some?) ==> shown == old(shown) && summary == old(summary)
    {
      var row := db.SelectById(id);
      found := row.Some?;
      if !found {
        return;
      }
      if submitted.Some? {
        db.Update(id, submitted.value);
        LoadTransactions();
      }
    }

    /** `delete_transaction`: when the user confirms, delete the row and reload; otherwise change nothing. */
    method DeleteTransaction(id: nat, confirmed: bool)
      requires Valid()
      modifies this, db
      ensures Valid()
      ensures db.State() == if confirmed then Deleted(old(db.State()), id) else old(db.State())
      ensures !confirmed ==> shown == old(shown) && summary == old(summary)
      ensures confirmed ==> id !in db.rows
    {
      if confirmed {
        db.Delete(id);
        LoadTransactions();
      }
    }

    /** `filter_table`: which of the shown rows the search text hides. */
    method FilterTable(text: string) returns (hidden: seq<bool>)
      ensures |hidden| == |shown|
      ensures forall i :: 0 <= i < |shown| ==> (hidden[i] <==> !RowMatches(RenderRow(shown[i]), text))
    {
      var rows := shown;
      var table := seq(|rows|, i requires 0 <= i < |rows| => RenderRow(rows[i]));
      hidden := HiddenRows(table, text);
    }
  }

  /** The form's two types: "Income" counts as income, "Expense" does not. */
  lemma StandardTypes()
    ensures IsIncome("Income") && !IsIncome("Expense")
  {
    assert Lower("Income") == "income";
    assert Lower("Expense")[0] == 'e';
  }

  /** In text order 01-01-2024 comes no later than 01-02-2024. */
  lemma DatesOfJanuary()
    ensures TextLe("01-01-2024", "01-02-2024")
  {
  }

  /**
   * A table of two rows, an income under id 1 and an expense under id 2 with
   * a date text no earlier, shows the income minus the expense, tracked
   * since the income's date, whatever listing the SELECT returns.
   */
  lemma TwoRowSummary(s: seq<Entry>, rows: map<nat, Row>, income: Row, expense: Row)
    requires rows == map[1 := income, 2 := expense]
    requires IsIncome(income.ttype) && !IsIncome(expense.ttype) && TextLe(income.date, expense.date)
    requires IsListing(s, rows)
    ensures var balance := income.amount - expense.amount;
      SummaryOf(s) == Summary(balance, Some(income.date), Arrow(balance))
  {
    var expected := [Entry(1, income), Entry(2, expense)];
    assert multiset(expected) == EntryBag(rows) by {
      assert rows.Keys == {1, 2};
      assert EntriesOf(rows, rows.Keys) == {expected[0], expected[1]};
    }
    SummaryIndependentOfTieOrder(s, expected, rows);
    assert expected[1..] == [expected[1]] && expected[1..][1..] == [];
    assert AmountTotal(expected[1..][1..], true) == 0 && AmountTotal(expected[1..][1..], false) == 0;
    assert AmountTotal(expected[1..], true) == 0 && AmountTotal(expected[1..], false) == expense.amount;
    assert AmountTotal(expected, true) == income.amount && AmountTotal(expected, false) == expense.amount;
  }

  /**
   * Adding a 1,000.00 income dated 01-01-2024 and a 150.50 expense dated
   * 01-02-2024 to a new database shows a balance of 849.50 with an up arrow,
   * tracked since 01-01-2024.
   */
  method SalaryThenFoodScenario()
  {
    var db := new Database.Fresh();
    db.InitDb();
    var tracker := new FinanceTracker(db);
    var salary := Row("01-01-2024", "Income", "Salary", 100000, Some(""));
    var food := Row("01-02-2024", "Expense", "Food", 15050, Some(""));
    var id1 := tracker.AddTransaction(salary);
    assert db.State() == Table(map[1 := salary], 1);
    var id2 := tracker.AddTransaction(food);
    assert db.State() == Table(map[1 := salary, 2 := food], 2);
    StandardTypes();
    DatesOfJanuary();
    TwoRowSummary(tracker.shown, db.rows, salary, food);
    assert tracker.summary == Summary(84950, Some("01-01-2024"), "▲");
  }
}
