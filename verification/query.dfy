/**
 * `update_expense_list`: the query built from an optional date range and an
 * optional category, and the rows it returns.
 */
module Query {
  import opened Wrappers
  import opened Seqs
  import opened TextOrder
  import opened Dates
  import opened Ledger

  /** The conditions the built statement expresses. */
  datatype Criteria = Criteria(range: Option<(string, string)>, category: Option<string>)

  /**
   * The statement was not valid SQL: `SELECT * FROM expenses AND category = ?`,
   * built when a category is given without both dates.
   */
  datatype QueryError = MalformedQuery

  /**
   * Builds the conditions as `update_expense_list` concatenates them. An
   * argument counts as given when it is truthy in Python; `None` and the empty
   * string are both falsy, and the model writes both as `""`. The range needs
   * both dates; the category clause is appended with a leading `AND`, which
   * is only well-formed after the `WHERE` of a range.
   */
  function ComposeFilter(start: string, end: string, category: string): Result<Criteria, QueryError> {
    var range := if start != "" && end != "" then Some((start, end)) else None;
    if category != "" && range.None? then Failure(MalformedQuery)
    else Success(Criteria(range, if category != "" then Some(category) else None))
  }

  /** `date BETWEEN start AND end` (both ends inclusive, compared as TEXT) and `category = c` (exact). */
  predicate Matches(c: Criteria, x: Expense) {
    && (c.range.Some? ==> LexLe(c.range.value.0, x.entry.date) && LexLe(x.entry.date, c.range.value.1))
    && (c.category.Some? ==> x.entry.category == c.category.value)
  }

  /**
   * The rows the view is refilled with. The statement is malformed exactly
   * when a category comes without both dates. Otherwise the rows are those of
   * the table, in table order, that lie in the inclusive text range when both
   * dates are given and carry the category when one is given.
   */
  function ListExpenses(st: Store, start: string, end: string, category: string): (r: Result<seq<Expense>, QueryError>)
    ensures r.Failure? <==> category != "" && (start == "" || end == "")
    ensures r.Success? ==> IsSubseq(r.value, st.rows)
    ensures r.Success? ==> forall x | x in r.value ::
      && x in st.rows
      && (start != "" && end != "" ==> LexLe(start, x.entry.date) && LexLe(x.entry.date, end))
      && (category != "" ==> x.entry.category == category)
    ensures r.Success? ==> forall x | x in st.rows ::
      && (start != "" && end != "" ==> LexLe(start, x.entry.date) && LexLe(x.entry.date, end))
      && (category != "" ==> x.entry.category == category)
      ==> x in r.value
  {
    match ComposeFilter(start, end, category)
    case Failure(e) => Failure(e)
    case Success(c) => Success(Filter(st.rows, (x: Expense) => Matches(c, x)))
  }

  /** With only one date (or none) and no category, every row is listed, in order. */
  lemma {:induction false} PartialRangeListsAll(st: Store, start: string, end: string)
    requires start == "" || end == ""
    ensures ListExpenses(st, start, end, "") == Success(st.rows)
  {
    var c := Criteria(None, None);
    assert ComposeFilter(start, end, "") == Success(c);
    FilterKeepsAll(st.rows, (x: Expense) => Matches(c, x));
  }

  /** A range whose start comes after its end (as text) lists nothing. */
  lemma ReversedRangeListsNothing(st: Store, start: string, end: string, category: string)
    requires start != "" && end != "" && !LexLe(start, end)
    ensures ListExpenses(st, start, end, category) == Success([])
  {
    var r := ListExpenses(st, start, end, category).value;
    if |r| > 0 {
      LexLeTransitive(start, r[0].entry.date, end);
      assert false;
    }
  }

  /**
   * When the bounds and a row's date are `full-date` texts, the text range
   * `BETWEEN` checks is the chronological range.
   */
  lemma RangeIsChronological(st: Store, start: string, end: string, category: string, x: Expense)
    requires IsFullDate(start) && IsFullDate(end) && IsFullDate(x.entry.date) && x in st.rows
    ensures ListExpenses(st, start, end, category).Success?
    ensures x in ListExpenses(st, start, end, category).value <==>
      && DateLe(FieldsOf(start), FieldsOf(x.entry.date))
      && DateLe(FieldsOf(x.entry.date), FieldsOf(end))
      && (category != "" ==> x.entry.category == category)
  {
    FullDateOrder(start, x.entry.date);
    FullDateOrder(x.entry.date, end);
  }

  /** A category without both dates gives the malformed statement, never a category-only list. */
  lemma CategoryNeedsRange(st: Store, start: string, category: string)
    requires category != ""
    ensures ListExpenses(st, start, "", category) == Failure(MalformedQuery)
    ensures ListExpenses(st, "", start, category) == Failure(MalformedQuery)
  {
  }

  /** The text comparisons the January example makes. */
  lemma JanuaryComparisons()
    ensures !LexLe("2024-01-01", "2023-12-31")
    ensures LexLe("2024-01-01", "2024-01-15") && LexLe("2024-01-15", "2024-01-31")
    ensures !LexLe("2024-02-01", "2024-01-31")
  {
    FirstDifference("2024-01-01", "2023-12-31", 3);
    FirstDifference("2024-01-01", "2024-01-15", 8);
    FirstDifference("2024-01-15", "2024-01-31", 8);
    FirstDifference("2024-02-01", "2024-01-31", 6);
  }

  /** January 2024 keeps the January row and drops its neighbours on both sides. */
  lemma JanuaryExample()
    ensures
      var dec := Expense(1, Entry("2023-12-31", "Food", 10.0));
      var jan := Expense(2, Entry("2024-01-15", "Food", 5.0));
      var feb := Expense(3, Entry("2024-02-01", "Transport", 3.0));
      ListExpenses(Store([dec, jan, feb], 4), "2024-01-01", "2024-01-31", "") == Success([jan])
  {
    var dec := Expense(1, Entry("2023-12-31", "Food", 10.0));
    var jan := Expense(2, Entry("2024-01-15", "Food", 5.0));
    var feb := Expense(3, Entry("2024-02-01", "Transport", 3.0));
    var c := Criteria(Some(("2024-01-01", "2024-01-31")), None);
    var p := (x: Expense) => Matches(c, x);
    JanuaryComparisons();
    assert !Matches(c, dec);
    assert Matches(c, jan);
    assert !Matches(c, feb);
    assert !p(dec);
    assert p(jan);
    assert !p(feb);
    assert Filter([feb], p) == [];
    assert Filter([jan, feb], p) == [jan];
    assert Filter([dec, jan, feb], p) == [jan];
  }

  /**
   * `strptime` accepts the date `2024-1-5`, but as TEXT it sorts after
   * `2024-01-31`, so the January range does not list that January row.
   */
  lemma UnpaddedDateFallsOutsideItsMonth()
    ensures ParseDate("2024-1-5") == Some(Date(2024, 1, 5))
    ensures
      var row := Expense(1, Entry("2024-1-5", "Food", 10.0));
      ListExpenses(Store([row], 2), "2024-01-01", "2024-01-31", "") == Success([])
  {
    LooseSpellings();
    var row := Expense(1, Entry("2024-1-5", "Food", 10.0));
    var c := Criteria(Some(("2024-01-01", "2024-01-31")), None);
    FirstDifference("2024-1-5", "2024-01-31", 5);
    assert !LexLe("2024-1-5", "2024-01-31");
    assert !Matches(c, row);
    var p := (x: Expense) => Matches(c, x);
    assert !p(row);
    assert Filter([row], p) == [];
  }
}
