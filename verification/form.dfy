/**
 * The entry form's OK handler (`FormDialog.validate_submit` and `get_data`):
 * a fixed chain of guards that turns what the user typed into either an
 * accepted row or the reason it was refused.
 */
module Form {
  import opened Records

  /** Largest amount the form lets through, before rounding. */
  const MaxAmount: real := 9999999.0

  /**
   * What the form holds when OK is pressed. `date` is the picked date already
   * formatted as `MM-dd-yyyy`, `ttype` the combo box text. `amount` is the
   * value Python's `float()` gives the amount text, or None when `float()`
   * refuses it.
   */
  datatype Candidate = Candidate(date: string, ttype: string, category: string, amount: Option<real>, note: string)

  /** The warnings the form shows, in the order it checks for them. */
  datatype Reason = AmountNotNumeric | CategoryEmpty | CategoryTooLong | AmountNotPositive | AmountTooLarge

  /**
   * `round(x, 2)`, expressed in cents: the integer nearest to 100 * x, an
   * exact tie going to the even neighbour.
   */
  function RoundCents(x: real): (c: int)
    ensures -0.5 <= x * 100.0 - c as real <= 0.5
    ensures x * 100.0 - c as real == 0.5 || x * 100.0 - c as real == -0.5 ==> c % 2 == 0
  {
    var scaled := x * 100.0;
    var f := scaled.Floor;
    var frac := scaled - f as real;
    if frac < 0.5 then f
    else if frac > 0.5 then f + 1
    else if f % 2 == 0 then f
    else f + 1
  }

  /** Rounding an amount that already has two decimals leaves it unchanged. */
  lemma RoundCentsOfCents(c: int)
    ensures RoundCents(c as real / 100.0) == c
  {
    assert (c as real / 100.0) * 100.0 == c as real;
  }

  /**
   * The row `get_data` hands on for a candidate that passed every guard: the
   * typed fields unchanged, the note always present, and the amount within
   * half a cent of what was typed.
   */
  function Accepted(c: Candidate): (r: Row)
    requires c.amount.Some?
    ensures r.date == c.date && r.ttype == c.ttype && r.category == c.category && r.note == Some(c.note)
    ensures -0.005 <= c.amount.value - r.amount as real / 100.0 <= 0.005
  {
    Row(c.date, c.ttype, c.category, RoundCents(c.amount.value), Some(c.note))
  }

  /**
   * The guard chain exactly as written: the positivity and upper-bound
   * checks look at the amount before it is rounded. Each refusal happens
   * exactly when its own check fails and every earlier one passed.
   */
  function ValidateSubmitAsWritten(c: Candidate): (r: Result<Row, Reason>)
    ensures r == Failure(AmountNotNumeric) <==> c.amount.None?
    ensures r == Failure(CategoryEmpty) <==> c.amount.Some? && |c.category| == 0
    ensures r == Failure(CategoryTooLong) <==> c.amount.Some? && |c.category| > MaxCategoryLength
    ensures r == Failure(AmountNotPositive) <==>
      c.amount.Some? && 1 <= |c.category| <= MaxCategoryLength && c.amount.value <= 0.0
    ensures r == Failure(AmountTooLarge) <==>
      c.amount.Some? && 1 <= |c.category| <= MaxCategoryLength && 0.0 < c.amount.value && c.amount.value > MaxAmount
    ensures r.Success? ==>
      c.amount.Some? && r.value == Accepted(c) && 1 <= |r.value.category| <= MaxCategoryLength
      && 0 <= r.value.amount <= MaxAmountCents
  {
    match c.amount
    case None => Failure(AmountNotNumeric)
    case Some(x) =>
      if |c.category| == 0 then Failure(CategoryEmpty)
      else if |c.category| > MaxCategoryLength then Failure(CategoryTooLong)
      else if x <= 0.0 then Failure(AmountNotPositive)
      else if x > MaxAmount then Failure(AmountTooLarge)
      else Success(Accepted(c))
  }

  /**
   * The guard chain with the positivity check applied to the rounded amount,
   * so that no accepted row has a zero amount. Every other guard, and the
   * order of all of them, is unchanged.
   */
  function ValidateSubmit(c: Candidate): (r: Result<Row, Reason>)
    ensures r == Failure(AmountNotNumeric) <==> c.amount.None?
    ensures r == Failure(CategoryEmpty) <==> c.amount.Some? && |c.category| == 0
    ensures r == Failure(CategoryTooLong) <==> c.amount.Some? && |c.category| > MaxCategoryLength
    ensures r == Failure(AmountNotPositive) <==>
      c.amount.Some? && 1 <= |c.category| <= MaxCategoryLength && RoundCents(c.amount.value) <= 0
    ensures r == Failure(AmountTooLarge) <==>
      c.amount.Some? && 1 <= |c.category| <= MaxCategoryLength && RoundCents(c.amount.value) > 0
      && c.amount.value > MaxAmount
    ensures r.Success? ==> c.amount.Some? && r.value == Accepted(c) && ValidRow(r.value)
  {
    match c.amount
    case None => Failure(AmountNotNumeric)
    case Some(x) =>
      if |c.category| == 0 then Failure(CategoryEmpty)
      else if |c.category| > MaxCategoryLength then Failure(CategoryTooLong)
      else if RoundCents(x) <= 0 then Failure(AmountNotPositive)
      else if x > MaxAmount then Failure(AmountTooLarge)
      else Success(Accepted(c))
  }

  /** An amount of 0.004 passes the written guards and is stored as 0.00. */
  lemma SubCentAmountAcceptedAsZero()
    ensures var c := Candidate("01-01-2024", "Expense", "Food", Some(0.004), "");
      && ValidateSubmitAsWritten(c) == Success(Row("01-01-2024", "Expense", "Food", 0, Some("")))
      && ValidateSubmit(c) == Failure(AmountNotPositive)
  {
    assert (0.004 * 100.0).Floor == 0;
  }

  /**
   * The corrected chain differs from the written one only where the written
   * one accepts an amount that rounds to zero; there it refuses the amount
   * as not positive.
   */
  lemma ValidateSubmitDiffersOnlyOnZeroAmounts(c: Candidate)
    ensures ValidateSubmit(c) != ValidateSubmitAsWritten(c) <==>
      ValidateSubmitAsWritten(c).Success? && ValidateSubmitAsWritten(c).value.amount == 0
    ensures ValidateSubmit(c) != ValidateSubmitAsWritten(c) ==> ValidateSubmit(c) == Failure(AmountNotPositive)
  {
  }

  /** The type shown after `setCurrentText`: the stored text when the combo box offers it, else its first item. */
  function PrefillType(ttype: string): (shown: string)
    ensures shown == "Income" || shown == "Expense"
    ensures ttype == "Income" || ttype == "Expense" ==> shown == ttype
    ensures !(ttype == "Income" || ttype == "Expense") ==> shown == "Income"
  {
    if ttype == "Income" || ttype == "Expense" then ttype else "Income"
  }

  /**
   * The form as the edit action pre-fills it from a stored row. The amount
   * field gets `str(amount)`, which `float()` reads back as the same value,
   * so rounding it gives back the stored cents.
   */
  function Prefill(row: Row): (c: Candidate)
    ensures c.date == row.date && c.category == row.category && c.note == NoteText(row.note)
    ensures c.ttype == PrefillType(row.ttype)
    ensures c.amount.Some? && RoundCents(c.amount.value) == row.amount
  {
    RoundCentsOfCents(row.amount);
    Candidate(row.date, PrefillType(row.ttype), row.category, Some(row.amount as real / 100.0), NoteText(row.note))
  }

  /**
   * Opening the edit form on a valid row and pressing OK without changing
   * anything is accepted by the chain as written and by the corrected one.
   * The row comes back with the type the combo box showed and the note the
   * field showed; for a row of a standard type with a note, it is that same row.
   */
  lemma ResubmitUnchangedKeepsRow(row: Row)
    requires ValidRow(row)
    ensures var kept := row.(ttype := PrefillType(row.ttype), note := Some(NoteText(row.note)));
      ValidateSubmitAsWritten(Prefill(row)) == Success(kept) && ValidateSubmit(Prefill(row)) == Success(kept)
    ensures (row.ttype == "Income" || row.ttype == "Expense") && row.note.Some? ==>
      ValidateSubmitAsWritten(Prefill(row)) == Success(row) && ValidateSubmit(Prefill(row)) == Success(row)
  {
    assert 0.0 < row.amount as real / 100.0 <= MaxAmount;
  }
}
