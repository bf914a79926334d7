/**
 * `analyze_expenses`: `SELECT category, SUM(amount) FROM expenses GROUP BY
 * category` over the whole table, refused when the table is empty.
 */
module Analysis {
  import opened Wrappers
  import opened Seqs
  import opened Ledger

  /** One result row: a category and the sum of its amounts. */
  datatype Group = Group(category: string, sum: real)

  /** The grouping returned no rows ("no data to analyse"). */
  datatype AnalyzeError = NoData

  /** The sum of all amounts. */
  function Total(rows: seq<Expense>): real
    decreases |rows|
  {
    if |rows| == 0 then 0.0 else rows[0].entry.amount + Total(rows[1..])
  }

  /** The sum of the amounts of the rows in category `c`. */
  function CategorySum(rows: seq<Expense>, c: string): real
    decreases |rows|
  {
    if |rows| == 0 then 0.0
    else (if rows[0].entry.category == c then rows[0].entry.amount else 0.0) + CategorySum(rows[1..], c)
  }

  /** Some row carries category `c`. */
  predicate HasCategory(rows: seq<Expense>, c: string) {
    exists i | 0 <= i < |rows| :: rows[i].entry.category == c
  }

  /** The categories present in `rows`, each once. */
  function Categories(rows: seq<Expense>): (cs: seq<string>)
    ensures Distinct(cs)
    ensures forall c :: c in cs <==> HasCategory(rows, c)
    decreases |rows|
  {
    if |rows| == 0 then []
    else
      var rest := Categories(rows[1..]);
      assert forall c :: HasCategory(rows, c) <==> c == rows[0].entry.category || HasCategory(rows[1..], c) by {
        forall c | HasCategory(rows, c)
          ensures c == rows[0].entry.category || HasCategory(rows[1..], c)
        {
          var i :| 0 <= i < |rows| && rows[i].entry.category == c;
          if i > 0 {
            assert rows[1..][i - 1].entry.category == c;
          }
        }
        forall c | HasCategory(rows[1..], c)
          ensures HasCategory(rows, c)
        {
          var i :| 0 <= i < |rows[1..]| && rows[1..][i].entry.category == c;
          assert rows[i + 1].entry.category == c;
        }
      }
      if rows[0].entry.category in rest then rest else [rows[0].entry.category] + rest
  }

  /** One group per listed category, with that category's sum. */
  function GroupsOf(rows: seq<Expense>, cs: seq<string>): seq<Group>
    decreases |cs|
  {
    if |cs| == 0 then [] else [Group(cs[0], CategorySum(rows, cs[0]))] + GroupsOf(rows, cs[1..])
  }

  function SumGroups(gs: seq<Group>): real
    decreases |gs|
  {
    if |gs| == 0 then 0.0 else gs[0].sum + SumGroups(gs[1..])
  }

  /** The categories of a grouping, in its order. */
  function GroupCategories(gs: seq<Group>): seq<string>
    decreases |gs|
  {
    if |gs| == 0 then [] else [gs[0].category] + GroupCategories(gs[1..])
  }

  lemma {:induction false} GroupsOfShape(rows: seq<Expense>, cs: seq<string>)
    ensures GroupCategories(GroupsOf(rows, cs)) == cs
    ensures forall g | g in GroupsOf(rows, cs) :: g.sum == CategorySum(rows, g.category)
    decreases |cs|
  {
    if |cs| > 0 {
      GroupsOfShape(rows, cs[1..]);
      assert GroupsOf(rows, cs)[1..] == GroupsOf(rows, cs[1..]);
      assert cs == [cs[0]] + cs[1..];
    }
  }

  /** The amount `x` contributes to the sums of the categories `cs`. */
  function Share(x: Expense, cs: seq<string>): real
    decreases |cs|
  {
    if |cs| == 0 then 0.0 else (if x.entry.category == cs[0] then x.entry.amount else 0.0) + Share(x, cs[1..])
  }

  /** A row adds its amount to exactly one of a list of distinct categories that includes its own. */
  lemma {:induction false} ShareOnce(x: Expense, cs: seq<string>)
    requires Distinct(cs)
    ensures Share(x, cs) == if x.entry.category in cs then x.entry.amount else 0.0
    decreases |cs|
  {
    if |cs| > 0 {
      ShareOnce(x, cs[1..]);
      assert x.entry.category in cs <==> x.entry.category == cs[0] || x.entry.category in cs[1..];
      forall k | 0 <= k < |cs[1..]|
        ensures cs[1..][k] != cs[0]
      {
        assert cs[1..][k] == cs[k + 1];
      }
    }
  }

  /** Adding a row in front adds its share to the sums of the groups. */
  lemma {:induction false} GroupsCons(rows: seq<Expense>, cs: seq<string>)
    requires |rows| > 0
    ensures SumGroups(GroupsOf(rows, cs)) == Share(rows[0], cs) + SumGroups(GroupsOf(rows[1..], cs))
    decreases |cs|
  {
    if |cs| > 0 {
      GroupsCons(rows, cs[1..]);
    }
  }

  /** Over distinct categories covering every row, the group sums add up to the total. */
  lemma {:induction false} GroupSumsAddUp(rows: seq<Expense>, cs: seq<string>)
    requires Distinct(cs)
    requires forall i | 0 <= i < |rows| :: rows[i].entry.category in cs
    ensures SumGroups(GroupsOf(rows, cs)) == Total(rows)
    decreases |rows|
  {
    if |rows| == 0 {
      EmptyGroups(cs);
    } else {
      GroupsCons(rows, cs);
      ShareOnce(rows[0], cs);
      GroupSumsAddUp(rows[1..], cs);
    }
  }

  lemma {:induction false} EmptyGroups(cs: seq<string>)
    ensures SumGroups(GroupsOf([], cs)) == 0.0
    decreases |cs|
  {
    if |cs| > 0 {
      EmptyGroups(cs[1..]);
    }
  }

  /**
   * The analysis: `NoData` exactly when the table is empty; otherwise one
   * group per category present and none for absent ones, each holding its
   * category's sum, and the group sums add up to the total of all amounts.
   * The order of the groups is not specified.
   */
  function AnalyzeExpenses(st: Store): (r: Result<seq<Group>, AnalyzeError>)
    ensures r.Failure? <==> |st.rows| == 0
    ensures r.Success? ==> Distinct(GroupCategories(r.value))
    ensures r.Success? ==> forall c :: c in GroupCategories(r.value) <==> HasCategory(st.rows, c)
    ensures r.Success? ==> forall g | g in r.value :: g.sum == CategorySum(st.rows, g.category)
    ensures r.Success? ==> SumGroups(r.value) == Total(st.rows)
  {
    var cs := Categories(st.rows);
    var gs := GroupsOf(st.rows, cs);
    GroupsOfShape(st.rows, cs);
    assert forall i | 0 <= i < |st.rows| :: HasCategory(st.rows, st.rows[i].entry.category);
    GroupSumsAddUp(st.rows, cs);
    assert |st.rows| > 0 ==> HasCategory(st.rows, st.rows[0].entry.category);
    if |gs| == 0 then
      Failure(NoData)
    else
      Success(gs)
  }

  /** Two Food rows and one Transport row. */
  lemma FoodAndTransport()
    ensures
      var rows := [Expense(1, Entry("2024-01-01", "Food", 10.0)),
                   Expense(2, Entry("2024-01-02", "Food", 5.0)),
                   Expense(3, Entry("2024-01-03", "Transport", 3.0))];
      AnalyzeExpenses(Store(rows, 4)) == Success([Group("Food", 15.0), Group("Transport", 3.0)])
  {
    var food1 := Expense(1, Entry("2024-01-01", "Food", 10.0));
    var food2 := Expense(2, Entry("2024-01-02", "Food", 5.0));
    var transport := Expense(3, Entry("2024-01-03", "Transport", 3.0));
    var rows := [food1, food2, transport];
    assert rows[1..] == [food2, transport] && rows[1..][1..] == [transport] && [transport][1..] == [];
    assert Categories([transport]) == ["Transport"];
    assert Categories([food2, transport]) == ["Food", "Transport"];
    assert Categories(rows) == ["Food", "Transport"];
    assert "Food" != "Transport" by {
      assert "Food"[0] != "Transport"[0];
    }
    assert CategorySum([], "Food") == 0.0 && CategorySum([], "Transport") == 0.0;
    assert CategorySum([transport], "Food") == 0.0 && CategorySum([transport], "Transport") == 3.0;
    assert CategorySum([food2, transport], "Food") == 5.0;
    assert CategorySum([food2, transport], "Transport") == 3.0;
    assert CategorySum(rows, "Food") == 15.0;
    assert CategorySum(rows, "Transport") == 3.0;
    assert GroupsOf(rows, ["Food", "Transport"]) == [Group("Food", 15.0), Group("Transport", 3.0)] by {
      assert ["Food", "Transport"][1..] == ["Transport"];
      assert ["Transport"][1..] == [];
    }
  }
}
