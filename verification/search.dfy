/**
 * The search bar (`filter_table`): a table row stays visible when the
 * lower-cased search text occurs in the lower-cased text of one of its cells.
 */
module Search {
  import opened Records
  import opened Text

  /**
   * The five text cells `load_transactions` puts in a table row: date, type,
   * category, the amount with two decimals, and note. (The two further
   * columns hold the Edit and Delete buttons and have no text item.) The
   * amount cell is the canonical `%.2f` text of the amount and reads back as
   * exactly the stored amount.
   */
  function RenderRow(e: Entry): (cells: seq<string>)
    ensures |cells| == 5
    ensures cells[0] == e.row.date && cells[1] == e.row.ttype && cells[2] == e.row.category
    ensures cells[3] == CentsText(e.row.amount) && IsCentsText(cells[3])
    ensures ParseCents(cells[3]) == Some(e.row.amount)
    ensures cells[4] == NoteText(e.row.note)
  {
    CentsTextRoundTrip(e.row.amount);
    [e.row.date, e.row.ttype, e.row.category, CentsText(e.row.amount), NoteText(e.row.note)]
  }

  /** Some cell's lower-cased text contains the lower-cased search text. */
  ghost predicate RowMatches(cells: seq<string>, text: string)
  {
    exists c :: 0 <= c < |cells| && IsSubstring(Lower(text), Lower(cells[c]))
  }

  /**
   * `filter_table` over the cell texts of the table: for each row, whether
   * it is hidden. A row is hidden exactly when none of its cells matches.
   */
  method HiddenRows(table: seq<seq<string>>, text: string) returns (hidden: seq<bool>)
    ensures |hidden| == |table|
    ensures forall r :: 0 <= r < |table| ==> (hidden[r] <==> !RowMatches(table[r], text))
  {
    var query := Lower(text);
    hidden := [];
    var row := 0;
    while row < |table|
      invariant 0 <= row <= |table| && |hidden| == row
      invariant forall r :: 0 <= r < row ==> (hidden[r] <==> !RowMatches(table[r], text))
    {
      var cells := table[row];
      var matched := false;
      var col := 0;
      while col < |cells|
        invariant 0 <= col <= |cells|
        invariant forall c :: 0 <= c < col ==> !IsSubstring(query, Lower(cells[c]))
      {
        if Contains(Lower(cells[col]), query) {
          matched := true;
          break;
        }
        col := col + 1;
      }
      hidden := hidden + [!matched];
      row := row + 1;
    }
  }

  /** An empty search text matches every row that has a cell, so nothing is hidden. */
  lemma EmptySearchMatchesEveryRow(cells: seq<string>)
    requires |cells| >= 1
    ensures RowMatches(cells, "")
  {
    assert Lower("") == "";
    EmptyIsSubstring(Lower(cells[0]));
  }

  /** Searching is insensitive to the case of the search text. */
  lemma SearchIgnoresCase(cells: seq<string>, text: string)
    ensures RowMatches(cells, text) <==> RowMatches(cells, Lower(text))
  {
    LowerIdempotent(text);
  }
}
