/**
 * `add_expense`: the three input checks, in their fixed order, followed by
 * the insertion of the validated row.
 */
module Validation {
  import opened Wrappers
  import opened Dates
  import opened Ledger

  /** Why an addition was refused; each kind has its own message. */
  datatype AddError =
    | MissingField   // some input is the empty string
    | InvalidAmount  // `float(amount)` raised `ValueError`
    | InvalidDate    // `strptime(date, "%Y-%m-%d")` raised `ValueError`
    | StorageFull    // the table has used up its rowids

  /**
   * The checks of `add_expense`, first failure wins. `parseAmount` stands for
   * Python's `float`: `None` where it raises `ValueError`. Only the empty
   * string counts as missing; a blank one passes that check.
   */
  function Validate(date: string, category: string, amount: string, parseAmount: string -> Option<real>): (r: Result<Entry, AddError>)
    ensures r == Failure(MissingField) <==> date == [] || category == [] || amount == []
    ensures r == Failure(InvalidAmount) <==> date != [] && category != [] && amount != [] && parseAmount(amount).None?
    ensures r == Failure(InvalidDate) <==>
      date != [] && category != [] && amount != [] && parseAmount(amount).Some? && !IsAcceptedDate(date)
    ensures r.Success? <==>
      date != [] && category != [] && amount != [] && parseAmount(amount).Some? && IsAcceptedDate(date)
    ensures r.Success? ==> r.value == Entry(date, category, parseAmount(amount).value)
  {
    ParseDateAccepts(date);
    if date == [] || category == [] || amount == [] then Failure(MissingField)
    else match parseAmount(amount)
      case None => Failure(InvalidAmount)
      case Some(value) =>
        if ParseDate(date).None? then Failure(InvalidDate)
        else Success(Entry(date, category, value))
  }

  /**
   * The whole of `add_expense` against the table: on any failure the table is
   * returned unchanged; on success it gains exactly one row, with the given
   * fields and an id taken from the AUTOINCREMENT counter: at least the
   * counter, so above every id ever assigned, deleted rows included. Nothing
   * else changes.
   */
  function AddExpense(st: Store, date: string, category: string, amount: string, parseAmount: string -> Option<real>): (r: (Store, Result<int, AddError>))
    requires Valid(st)
    ensures Valid(r.0)
    ensures r.1.Failure? ==> r.0 == st
    ensures r.1.Failure? ==>
      r.1.error == (if Validate(date, category, amount, parseAmount).Failure?
                    then Validate(date, category, amount, parseAmount).error else StorageFull)
    ensures r.1.Success? <==> Validate(date, category, amount, parseAmount).Success? && st.nextId <= MaxRowId
    ensures r.1.Success? ==>
      && r.0.rows == st.rows + [Expense(r.1.value, Entry(date, category, parseAmount(amount).value))]
      && (forall x | x in st.rows :: x.id < r.1.value)
      && st.nextId <= r.1.value
      && r.0.nextId == r.1.value + 1
  {
    match Validate(date, category, amount, parseAmount)
    case Failure(e) => (st, Failure(e))
    case Success(entry) =>
      match Insert(st, entry)
      case Failure(_) => (st, Failure(StorageFull))
      case Success((st', id)) => (st', Success(id))
  }

  /** Every stored row passed the checks: an accepted date and a non-empty category. */
  ghost predicate Recorded(st: Store) {
    forall x | x in st.rows :: IsAcceptedDate(x.entry.date) && x.entry.category != []
  }

  /** Additions keep every row checked. */
  lemma AddExpenseKeepsRecorded(st: Store, date: string, category: string, amount: string, parseAmount: string -> Option<real>)
    requires Valid(st) && Recorded(st)
    ensures Recorded(AddExpense(st, date, category, amount, parseAmount).0)
  {
  }

  /** Deletions keep every row checked. */
  lemma DeleteIdsKeepsRecorded(st: Store, ids: set<int>)
    requires Valid(st) && Recorded(st)
    ensures Recorded(DeleteIds(st, ids))
  {
  }

  /** One rejection of each kind, the first failing check deciding, and a blank category getting through. */
  lemma ValidateExamples(parseAmount: string -> Option<real>)
    requires parseAmount("abc").None? && parseAmount("10.5") == Some(10.5)
    ensures Validate("2024-01-15", "Food", "abc", parseAmount) == Failure(InvalidAmount)
    ensures Validate("2024-13-40", "Food", "10.5", parseAmount) == Failure(InvalidDate)
    ensures Validate("2024-01-15", "", "10.5", parseAmount) == Failure(MissingField)
    ensures Validate("", "Food", "abc", parseAmount) == Failure(MissingField)
    ensures Validate("2024-13-40", "Food", "abc", parseAmount) == Failure(InvalidAmount)
    ensures Validate("2024-1-5", " ", "10.5", parseAmount) == Success(Entry("2024-1-5", " ", 10.5))
  {
    RejectsImpossibleDates();
    LooseSpellings();
  }
}
