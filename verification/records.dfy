/**
 * The record shape of the `transactions` table and the value types shared by
 * the rest of the ledger model.
 */
module Records {

  datatype Option<+T> = None | Some(value: T)

  datatype Result<+T, +E> = Success(value: T) | Failure(error: E)

  /** Longest category the entry form accepts, in characters. */
  const MaxCategoryLength: nat := 20

  /** Largest amount the entry form accepts (9,999,999.00), in cents. */
  const MaxAmountCents: nat := 999_999_900

  /**
   * One row of the `transactions` table without its id. `date`, `ttype`,
   * `category` and `amount` are NOT NULL columns and are always present;
   * `note` is the one nullable column. `date` is the `MM-dd-yyyy` text the
   * form writes, `ttype` the text of the type column ("Income"/"Expense"
   * as chosen, but any text is storable) and `amount` is in cents.
   */
  datatype Row = Row(date: string, ttype: string, category: string, amount: int, note: Option<string>)

  /** A row together with its primary key, as the SELECT statements return it. */
  datatype Entry = Entry(id: nat, row: Row)

  /**
   * The invariants of a row the corrected guard chain (`Form.ValidateSubmit`)
   * accepts: a category of 1 to 20 characters and 0.01 <= amount <= 9,999,999.00.
   * The chain as written also lets through rows of amount 0.00, which are not valid.
   */
  predicate ValidRow(r: Row)
  {
    1 <= |r.category| <= MaxCategoryLength && 1 <= r.amount <= MaxAmountCents
  }

  /** The text a nullable note shows in a table cell or in the form's note field: a NULL note reads as empty text. */
  function NoteText(note: Option<string>): string
  {
    match note
    case Some(n) => n
    case None => ""
  }
}
